/**
  put_file and free_file as step machines: any number of calls on different inodes, their parallel uploads succeeding,
  failing or being cancelled in any order, interleaved at every access to the shared tables and the backend.
 */
module PutProtocol {
  import opened Bytes
  import opened Blobs
  import opened Plan
  import opened Tables
  import opened Sums

  /** An upload task of one call, for the sha it is filed under. */
  datatype Task =
    | Queued
    | Uploaded(handle: Handle)  // in the backend, not yet registered
    | Losing(handle: Handle)    // another writer registered the sha first: our copy is to be deleted
    | Done
    | Failed
    | Cancelled
  {
    predicate Finished() {
      Done? || Failed? || Cancelled?
    }

    /** The task holds a reference on its sha. */
    predicate Registered() {
      Losing? || Done?
    }

    /** The task has a copy in the backend that no blob row names. */
    predicate Carries() {
      Uploaded? || Losing?
    }
  }

  /** Local variables of one put_file call. */
  datatype Put = Put(
    src: Data, dirty: Option<set<nat>>, was: seq<Row>,  // arguments and the rows found at the start
    rows: seq<Row>,                                     // new list so far; its length is idx
    acquired: seq<Sha>, pending: map<Sha, Task>, dups: seq<Sha>,
    settled: nat,                                       // repeats that have taken their reference
    seeking: bool)                                      // the next chunk's sha was looked up in vain; waiting for a slot
  {
    ghost function Unregistered(): set<Sha> {
      set s | s in pending && !pending[s].Registered()
    }

    ghost function Held(): multiset<Sha> {
      Owed(acquired, Unregistered())
    }
  }

  /** Why references are being dropped. */
  datatype Reason = Replaced | RolledBack(p: Put) | Freed

  datatype Proc =
    | Idle
    | Working(p: Put)   // scanning chunks, then waiting for uploads and settling repeats
    | Stopping(p: Put)  // something raised: uploads are cancelled or awaited
    | Published(p: Put) // rows replaced, size column not yet
    | Dropping(why: Reason, todo: seq<Sha>, deleting: Option<Handle>)

  datatype File = File(rows: seq<Row>, size: nat, proc: Proc)
  datatype Shared = Shared(blobs: BlobTable, live: map<Handle, Data>, next: Handle)
  datatype World = World(files: map<Ino, File>, shared: Shared)

  // ----- steps -----------------------------------------------------------------------------

  datatype Act =
    | Start(src: Data, dirty: Option<set<nat>>)
    | Keep | Repeat | Know | Seek | Submit
    | Upload(sha: Sha) | Fail(sha: Sha) | Register(sha: Sha) | DropCopy(sha: Sha)
    | Settle | Publish | SetSize
    | Abort | Cancel(sha: Sha) | Rollback
    | Free
    | Drop | Skip | Delete | Finish

  function Incref(blobs: BlobTable, s: Sha): BlobTable
    requires s in blobs
  {
    blobs[s := blobs[s].(refcount := blobs[s].refcount + 1)]
  }

  function Decref(blobs: BlobTable, s: Sha): BlobTable {
    if s !in blobs then blobs
    else if blobs[s].refcount <= 1 then blobs - {s}
    else blobs[s := blobs[s].(refcount := blobs[s].refcount - 1)]
  }

  /** The handle to delete once s has lost a reference. */
  function Orphan(blobs: BlobTable, s: Sha): Option<Handle> {
    if s in blobs && blobs[s].refcount <= 1 then Some(blobs[s].handle) else None
  }

  ghost predicate Scanning(cs: nat, p: Put)
    requires cs > 0
  {
    |p.rows| < Chunks(|p.src|, cs)
  }

  /** The next chunk's row, kept or computed. */
  ghost function NextRow(cs: nat, p: Put): Row
    requires cs > 0 && Scanning(cs, p)
  {
    PlanRow(p.src, cs, p.was, p.dirty, |p.rows|)
  }

  ghost predicate Clean(cs: nat, p: Put)
    requires cs > 0
  {
    Reused(|p.rows|, |p.src|, cs, p.was, p.dirty)
  }

  ghost predicate AllDone(p: Put) {
    forall s :: s in p.pending ==> p.pending[s].Done?
  }

  ghost predicate AllFinished(p: Put) {
    forall s :: s in p.pending ==> p.pending[s].Finished()
  }

  ghost function Running(p: Put): set<Sha> {
    set s | s in p.pending && !p.pending[s].Finished()
  }

  function WithTask(p: Put, s: Sha, t: Task): Put {
    p.(pending := p.pending[s := t])
  }

  /** Whether this proc has an upload task in state t for s. */
  predicate HasTask(proc: Proc, s: Sha) {
    (proc.Working? || proc.Stopping?) && s in proc.p.pending
  }

  function SetTask(proc: Proc, s: Sha, t: Task): Proc
    requires HasTask(proc, s)
  {
    if proc.Working? then Working(WithTask(proc.p, s, t)) else Stopping(WithTask(proc.p, s, t))
  }

  ghost function Skipped(why: Reason): set<Sha> {
    if why.RolledBack? then why.p.Unregistered() else {}
  }

  /** One step of the call on one inode: act takes its file and the shared state to f' and g'. */
  ghost predicate Does(cs: nat, workers: nat, act: Act, f: File, g: Shared, f': File, g': Shared)
    requires cs > 0
  {
    match act
    case Start(src, dirty) =>
      && f.proc.Idle? && g' == g
      && f' == f.(proc := Working(Put(src, dirty, f.rows, [], [], map[], [], 0, false)))
    case Keep =>
      && f.proc.Working? && Scanning(cs, f.proc.p) && !f.proc.p.seeking && Clean(cs, f.proc.p)
      && var p, r := f.proc.p, NextRow(cs, f.proc.p);
      && r.sha in g.blobs && g' == g.(blobs := Incref(g.blobs, r.sha))
      && f' == f.(proc := Working(p.(rows := p.rows + [r], acquired := p.acquired + [r.sha])))
    case Repeat =>
      && f.proc.Working? && Scanning(cs, f.proc.p) && !f.proc.p.seeking && !Clean(cs, f.proc.p)
      && var p, r := f.proc.p, NextRow(cs, f.proc.p);
      && r.sha in p.pending && g' == g
      && f' == f.(proc := Working(p.(rows := p.rows + [r], dups := p.dups + [r.sha])))
    case Know =>
      && f.proc.Working? && Scanning(cs, f.proc.p) && !f.proc.p.seeking && !Clean(cs, f.proc.p)
      && var p, r := f.proc.p, NextRow(cs, f.proc.p);
      && r.sha !in p.pending && r.sha in g.blobs && g' == g.(blobs := Incref(g.blobs, r.sha))
      && f' == f.(proc := Working(p.(rows := p.rows + [r], acquired := p.acquired + [r.sha])))
    case Seek =>
      && f.proc.Working? && Scanning(cs, f.proc.p) && !f.proc.p.seeking && !Clean(cs, f.proc.p)
      && var p, r := f.proc.p, NextRow(cs, f.proc.p);
      && r.sha !in p.pending && r.sha !in g.blobs && g' == g
      && f' == f.(proc := Working(p.(seeking := true)))
    case Submit =>
      && f.proc.Working? && Scanning(cs, f.proc.p) && f.proc.p.seeking
      && var p, r := f.proc.p, NextRow(cs, f.proc.p);
      && |Running(p)| < workers && g' == g
      && f' == f.(proc := Working(p.(rows := p.rows + [r], acquired := p.acquired + [r.sha],
                                     pending := p.pending[r.sha := Queued], seeking := false)))
    case Upload(s) =>
      && HasTask(f.proc, s) && f.proc.p.pending[s].Queued?
      && f' == f.(proc := SetTask(f.proc, s, Uploaded(g.next)))
      && g' == g.(live := g.live[g.next := Pre(s)], next := g.next + 1)
    case Fail(s) =>
      && HasTask(f.proc, s) && f.proc.p.pending[s].Queued?
      && f' == f.(proc := SetTask(f.proc, s, Failed)) && g' == g
    case Register(s) =>
      && HasTask(f.proc, s) && f.proc.p.pending[s].Uploaded?
      && var h := f.proc.p.pending[s].handle;
      if s !in g.blobs then
        && f' == f.(proc := SetTask(f.proc, s, Done))
        && g' == g.(blobs := g.blobs[s := Blob(h, |Pre(s)|, 1)])
      else
        && f' == f.(proc := SetTask(f.proc, s, Losing(h)))
        && g' == g.(blobs := Incref(g.blobs, s))
    case DropCopy(s) =>
      && HasTask(f.proc, s) && f.proc.p.pending[s].Losing?
      && f' == f.(proc := SetTask(f.proc, s, Done))
      && g' == g.(live := g.live - {f.proc.p.pending[s].handle})
    case Settle =>
      && f.proc.Working? && !Scanning(cs, f.proc.p) && AllDone(f.proc.p) && f.proc.p.settled < |f.proc.p.dups|
      && var p := f.proc.p;
      && var s := p.dups[p.settled];
      && g' == g.(blobs := if s in g.blobs then Incref(g.blobs, s) else g.blobs)
      && f' == f.(proc := Working(p.(acquired := p.acquired + [s], settled := p.settled + 1)))
    case Publish =>
      && f.proc.Working? && !Scanning(cs, f.proc.p) && AllDone(f.proc.p) && f.proc.p.settled == |f.proc.p.dups|
      && f' == f.(rows := f.proc.p.rows, proc := Published(f.proc.p)) && g' == g
    case SetSize =>
      && f.proc.Published? && g' == g
      && f' == f.(size := |f.proc.p.src|, proc := Dropping(Replaced, Shas(f.proc.p.was), None))
    case Abort =>
      && f.proc.Working? && f' == f.(proc := Stopping(f.proc.p)) && g' == g
    case Cancel(s) =>
      && f.proc.Stopping? && s in f.proc.p.pending && f.proc.p.pending[s].Queued?
      && f' == f.(proc := SetTask(f.proc, s, Cancelled)) && g' == g
    case Rollback =>
      && f.proc.Stopping? && AllFinished(f.proc.p) && g' == g
      && f' == f.(proc := Dropping(RolledBack(f.proc.p), f.proc.p.acquired, None))
    case Free =>
      && f.proc.Idle? && f' == f.(proc := Dropping(Freed, Shas(f.rows), None)) && g' == g
    case Drop =>
      && f.proc.Dropping? && f.proc.todo != [] && f.proc.deleting.None? && f.proc.todo[0] !in Skipped(f.proc.why)
      && var s := f.proc.todo[0];
      && g' == g.(blobs := Decref(g.blobs, s))
      && f' == f.(proc := Dropping(f.proc.why, f.proc.todo[1..], Orphan(g.blobs, s)))
    case Skip =>
      && f.proc.Dropping? && f.proc.todo != [] && f.proc.deleting.None? && f.proc.todo[0] in Skipped(f.proc.why)
      && g' == g && f' == f.(proc := Dropping(f.proc.why, f.proc.todo[1..], None))
    case Delete =>
      && f.proc.Dropping? && f.proc.deleting.Some?
      && g' == g.(live := g.live - {f.proc.deleting.value})
      && f' == f.(proc := Dropping(f.proc.why, f.proc.todo, None))
    case Finish =>
      && f.proc.Dropping? && f.proc.todo == [] && f.proc.deleting.None? && g' == g
      && f' == File(if f.proc.why.Freed? then [] else f.rows, if f.proc.why.Freed? then 0 else f.size, Idle)
  }

  /** Some inode's call takes a step; everyone else stands still. */
  ghost predicate Step(cs: nat, workers: nat, w: World, ino: Ino, act: Act, w': World)
    requires cs > 0
  {
    && ino in w.files && w'.files.Keys == w.files.Keys
    && w'.files == w.files[ino := w'.files[ino]]
    && Does(cs, workers, act, w.files[ino], w.shared, w'.files[ino], w'.shared)
  }

  // ----- what each file claims -------------------------------------------------------------

  /** References a file accounts for: its rows, and what its call has taken or still has to drop. */
  ghost function Claim(f: File): multiset<Sha> {
    match f.proc
    case Idle => Bag(f.rows)
    case Working(p) => Bag(f.rows) + p.Held()
    case Stopping(p) => Bag(f.rows) + p.Held()
    case Published(p) => Bag(f.rows) + Bag(p.was)
    case Dropping(why, todo, _) => (if why.Freed? then multiset{} else Bag(f.rows)) + Owed(todo, Skipped(why))
  }

  ghost function TaskHandles(pending: map<Sha, Task>): set<Handle> {
    set s | s in pending && pending[s].Carries() :: pending[s].handle
  }

  /** Backend handles a file's call has in hand: uploaded and unregistered, or about to be deleted. */
  ghost function Carried(f: File): set<Handle> {
    match f.proc
    case Working(p) => TaskHandles(p.pending)
    case Stopping(p) => TaskHandles(p.pending)
    case Dropping(_, _, deleting) => if deleting.Some? then {deleting.value} else {}
    case _ => {}
  }

  ghost function Claims(files: map<Ino, File>): map<Ino, multiset<Sha>> {
    map i | i in files :: Claim(files[i])
  }

  // ----- invariant -------------------------------------------------------------------------

  /** h is live and named by the blob row of the sha of its bytes. */
  predicate Named(g: Shared, h: Handle) {
    h in g.live && Hash(g.live[h]) in g.blobs && g.blobs[Hash(g.live[h])].handle == h
  }

  /** Each blob row names a live handle whose bytes hash to its sha. */
  ghost predicate BlobsLive(g: Shared) {
    && (forall s :: s in g.blobs ==>
          g.blobs[s].refcount > 0 && g.blobs[s].len == |Pre(s)| && g.blobs[s].handle in g.live && g.live[g.blobs[s].handle] == Pre(s))
    && (forall h :: h in g.live ==> h < g.next)
  }

  /** Nothing this call has or found refers to s. */
  ghost predicate Unheld(p: Put, s: Sha) {
    s !in p.pending && s !in Shas(p.was) && Takes(p.acquired, {}, s) == 0
  }

  /** A working call: its list is the planned one so far, and its references are one per row, bar repeats still to settle. */
  ghost predicate PutInv(cs: nat, f: File, p: Put, live: map<Handle, Data>)
    requires cs > 0
  {
    && p.was == f.rows
    && |p.rows| <= Chunks(|p.src|, cs)
    && (forall k :: 0 <= k < |p.rows| ==> p.rows[k] == PlanRow(p.src, cs, p.was, p.dirty, k))
    && p.settled <= |p.dups|
    && (forall s :: Even(p, s))
    && (p.settled > 0 ==> AllDone(p) && |p.rows| == Chunks(|p.src|, cs))
    && (forall s :: s in p.dups ==> s in p.pending)
    && (p.seeking ==> Scanning(cs, p) && Unheld(p, NextRow(cs, p).sha))
    && (forall s :: s in p.pending ==> s !in Shas(p.was) && Takes(p.acquired, {}, s) == 1 + Tally(p.dups, p.settled, {}, s))
    && (forall s :: s in p.pending && p.pending[s].Carries() ==> p.pending[s].handle in live && live[p.pending[s].handle] == Pre(s))
  }

  ghost predicate FileInv(cs: nat, f: File, live: map<Handle, Data>)
    requires cs > 0
  {
    match f.proc
    case Working(p) => PutInv(cs, f, p, live)
    case Stopping(p) => PutInv(cs, f, p, live)
    case Published(p) => f.rows == PutRows(p.src, cs, p.was, p.dirty)
    case _ => true
  }

  /**
    Conservation: each refcount is the sum of the files' claims; each live handle is named by a blob row or carried by
    exactly one call.
   */
  ghost predicate Inv(cs: nat, w: World)
    requires cs > 0
  {
    && BlobsLive(w.shared)
    && (forall s :: Ref(w.shared.blobs, s) == Gather(Claims(w.files))[s])
    && (forall i :: i in w.files ==> FileInv(cs, w.files[i], w.shared.live))
    && (forall h :: h in w.shared.live && !Named(w.shared, h) ==> exists i :: i in w.files && h in Carried(w.files[i]))
    && (forall i, h :: i in w.files && h in Carried(w.files[i]) ==> h in w.shared.live && !Named(w.shared, h))
    && (forall i, j, h :: i in w.files && j in w.files && i != j && h in Carried(w.files[i]) ==> h !in Carried(w.files[j]))
  }

  // ----- one step, seen from one file ------------------------------------------------------

  /** What the invariant says about one file and the shared state. */
  ghost predicate Solvent(cs: nat, f: File, g: Shared)
    requires cs > 0
  {
    && BlobsLive(g) && FileInv(cs, f, g.live)
    && (forall s :: Claim(f)[s] <= Ref(g.blobs, s))
    && InHand(Carried(f), g)
  }

  /** Refcounts change by exactly what the claim changes by. */
  ghost predicate Balanced(claim: multiset<Sha>, blobs: BlobTable, claim': multiset<Sha>, blobs': BlobTable) {
    forall s :: Ref(blobs', s) + claim[s] == Ref(blobs, s) + claim'[s]
  }

  /** Handles pass only between the backend, the blob rows and the call that carries c. */
  ghost predicate Passed(c: set<Handle>, g: Shared, c': set<Handle>, g': Shared) {
    && (forall h :: h in g'.live && h !in g.live ==> h in c')
    && (forall h :: h in g.live && h !in c ==> h in g'.live && (Named(g, h) ==> Named(g', h) || h in c'))
    && (forall h :: h in g.live && h in g'.live ==> g'.live[h] == g.live[h])
    && (forall h :: h in c' ==> h in g'.live && !Named(g', h) && (h in c || Named(g, h) || h !in g.live))
    && (forall h :: h in c && h in g'.live ==> h in c' || Named(g', h))
    && (forall h :: Named(g', h) ==> Named(g, h) || h in c)
  }

  /** Everything a step owes to the others. */
  ghost predicate Fair(cs: nat, f: File, g: Shared, f': File, g': Shared)
    requires cs > 0
  {
    && Balanced(Claim(f), g.blobs, Claim(f'), g'.blobs) && Passed(Carried(f), g, Carried(f'), g')
    && BlobsLive(g') && FileInv(cs, f', g'.live)
  }

  /** What a call holds on s: nothing while its upload of s has not registered, else one per acquired entry. */
  lemma HeldIs(p: Put, s: Sha)
    ensures p.Held()[s] == if s in p.Unregistered() then 0 else Takes(p.acquired, {}, s)
  {
    TakesIsCount(p.acquired, p.Unregistered(), s);
    TakesIsCount(p.acquired, {}, s);
  }

  lemma RowAppend(rows: seq<Row>, r: Row, s: Sha)
    ensures Bag(rows + [r])[s] == Bag(rows)[s] + if s == r.sha then 1 else 0
  {
    assert Shas(rows + [r]) == Shas(rows) + [r.sha];
    assert multiset(Shas(rows) + [r.sha]) == multiset(Shas(rows)) + multiset{r.sha};
  }

  /** Increments leave handles and what is live alone. */
  lemma IncrefKeeps(g: Shared, s: Sha)
    requires BlobsLive(g) && s in g.blobs
    ensures var g' := g.(blobs := Incref(g.blobs, s));
            && BlobsLive(g') && (forall h :: Named(g', h) <==> Named(g, h))
            && (forall x :: Ref(g'.blobs, x) == Ref(g.blobs, x) + if x == s then 1 else 0)
  {
    var blobs' := Incref(g.blobs, s);
    assert blobs'.Keys == g.blobs.Keys;
    forall x | x in blobs'
      ensures blobs'[x].handle == g.blobs[x].handle && blobs'[x].len == g.blobs[x].len
    {
    }
  }

  /** Counting clause of PutInv for one sha. */
  ghost predicate Even(p: Put, s: Sha)
    requires p.settled <= |p.dups|
  {
    Bag(p.rows)[s] + Tally(p.dups, p.settled, {}, s) == Takes(p.acquired, {}, s) + Takes(p.dups, {}, s)
  }

  lemma EvenNext(p: Put, r: Row, s: Sha)
    requires p.settled <= |p.dups| && Even(p, s)
    ensures Even(p.(rows := p.rows + [r], acquired := p.acquired + [r.sha]), s)
    ensures Even(p.(rows := p.rows + [r], dups := p.dups + [r.sha]), s)
  {
    RowAppend(p.rows, r, s);
    TakesAppend(p.acquired, {}, r.sha, s);
    TakesAppend(p.dups, {}, r.sha, s);
    TallySame(p.dups, p.dups + [r.sha], p.settled, {}, {}, s);
  }

  /** The list grows by one row and `acquired` by its sha; the tasks keep their standing otherwise. */
  lemma AcquireNext(cs: nat, f: File, p: Put, live: map<Handle, Data>, r: Row, pending': map<Sha, Task>)
    requires cs > 0 && PutInv(cs, f, p, live) && Scanning(cs, p) && r == NextRow(cs, p) && r.sha !in p.pending
    requires pending' == p.pending ||
             (pending' == p.pending[r.sha := Queued] && Unheld(p, r.sha))
    ensures PutInv(cs, f, p.(rows := p.rows + [r], acquired := p.acquired + [r.sha], pending := pending', seeking := false), live)
  {
    var q := p.(rows := p.rows + [r], acquired := p.acquired + [r.sha], seeking := false);
    var p' := q.(pending := pending');
    forall s
      ensures Even(p', s)
    {
      EvenNext(p, r, s);
      assert Even(q, s);
    }
    forall s | s in p'.pending
      ensures Takes(p'.acquired, {}, s) == 1 + Tally(p'.dups, p'.settled, {}, s)
    {
      TakesAppend(p.acquired, {}, r.sha, s);
    }
  }

  /** The call's unnamed copies. */
  ghost predicate InHand(c: set<Handle>, g: Shared) {
    forall h :: h in c ==> h in g.live && !Named(g, h)
  }

  lemma PassedSame(c: set<Handle>, g: Shared, g': Shared)
    requires g'.live == g.live && InHand(c, g) && forall h :: Named(g', h) <==> Named(g, h)
    ensures Passed(c, g, c, g')
  {
  }

  lemma PassedUpload(c: set<Handle>, g: Shared, d: Data)
    requires BlobsLive(g) && InHand(c, g)
    ensures var g' := g.(live := g.live[g.next := d], next := g.next + 1);
            BlobsLive(g') && Passed(c, g, c + {g.next}, g')
  {
    var g' := g.(live := g.live[g.next := d], next := g.next + 1);
    assert g.next !in g.live;
    forall h
      ensures Named(g', h) <==> Named(g, h)
    {
      if h == g.next && Hash(d) in g.blobs {
        assert g.blobs[Hash(d)].handle in g.live;
      }
    }
  }

  lemma PassedRegister(c: set<Handle>, g: Shared, s: Sha, h0: Handle)
    requires BlobsLive(g) && InHand(c, g) && h0 in c && s !in g.blobs && g.live[h0] == Pre(s)
    ensures var g' := g.(blobs := g.blobs[s := Blob(h0, |Pre(s)|, 1)]);
            BlobsLive(g') && Passed(c, g, c - {h0}, g')
  {
    var g' := g.(blobs := g.blobs[s := Blob(h0, |Pre(s)|, 1)]);
    forall h
      ensures Named(g', h) <==> Named(g, h) || h == h0
    {
    }
  }

  lemma PassedDelete(c: set<Handle>, g: Shared, h0: Handle)
    requires BlobsLive(g) && InHand(c, g) && h0 in c
    ensures var g' := g.(live := g.live - {h0});
            BlobsLive(g') && Passed(c, g, c - {h0}, g')
  {
    UnnamedGone(g, h0);
  }

  /** Deleting a handle that no blob row names leaves every blob live. */
  lemma UnnamedGone(g: Shared, h: Handle)
    requires BlobsLive(g) && h in g.live && !Named(g, h)
    ensures BlobsLive(g.(live := g.live - {h}))
    ensures forall x :: Named(g.(live := g.live - {h}), x) <==> Named(g, x)
  {
    forall s | s in g.blobs
      ensures g.blobs[s].handle != h
    {
      assert Named(g, g.blobs[s].handle);
    }
  }

  lemma HeldNext(p: Put, r: Row, s: Sha)
    requires r.sha !in p.pending
    ensures p.(rows := p.rows + [r], acquired := p.acquired + [r.sha]).Held()[s] == p.Held()[s] + if s == r.sha then 1 else 0
    ensures Takes(p.acquired, {}, r.sha) == 0 ==>
              p.(rows := p.rows + [r], acquired := p.acquired + [r.sha],
                 pending := p.pending[r.sha := Queued], seeking := false).Held()[s] == p.Held()[s]
  {
    var q := p.(rows := p.rows + [r], acquired := p.acquired + [r.sha]);
    var t := q.(pending := p.pending[r.sha := Queued], seeking := false);
    assert q.Unregistered() == p.Unregistered() && t.Unregistered() == p.Unregistered() + {r.sha};
    HeldIs(p, s);
    HeldIs(q, s);
    HeldIs(t, s);
    TakesAppend(p.acquired, {}, r.sha, s);
  }

  /** A reference taken on a known blob for the next row. */
  lemma TakeKnown(cs: nat, f: File, g: Shared, f': File, g': Shared)
    requires cs > 0 && Solvent(cs, f, g) && f.proc.Working? && Scanning(cs, f.proc.p)
    requires var p, r := f.proc.p, NextRow(cs, f.proc.p);
             && r.sha in g.blobs && r.sha !in p.pending && !p.seeking
             && g' == g.(blobs := Incref(g.blobs, r.sha))
             && f' == f.(proc := Working(p.(rows := p.rows + [r], acquired := p.acquired + [r.sha])))
    ensures Fair(cs, f, g, f', g')
  {
    var p, r := f.proc.p, NextRow(cs, f.proc.p);
    IncrefKeeps(g, r.sha);
    AcquireNext(cs, f, p, g.live, r, p.pending);
    forall s
      ensures Claim(f')[s] == Claim(f)[s] + if s == r.sha then 1 else 0
    {
      HeldNext(p, r, s);
    }
    PassedSame(Carried(f), g, g');
  }

  /** A clean chunk's sha is claimed by the old rows, so it is neither unknown nor being uploaded by this call. */
  lemma CleanKnown(cs: nat, f: File, g: Shared)
    requires cs > 0 && Solvent(cs, f, g) && f.proc.Working? && Scanning(cs, f.proc.p) && Clean(cs, f.proc.p)
    ensures NextRow(cs, f.proc.p).sha in g.blobs && NextRow(cs, f.proc.p).sha !in f.proc.p.pending
  {
    var p := f.proc.p;
    var r := NextRow(cs, p);
    assert Shas(p.was)[|p.rows|] == r.sha;
    assert r.sha in multiset(Shas(p.was));
    assert Claim(f)[r.sha] > 0;
  }

  lemma SeekInv(cs: nat, f: File, g: Shared, p: Put)
    requires cs > 0 && Solvent(cs, f, g) && f.proc == Working(p) && Scanning(cs, p)
    requires NextRow(cs, p).sha !in p.pending && NextRow(cs, p).sha !in g.blobs
    ensures PutInv(cs, f, p.(seeking := true), g.live)
  {
    var s, p' := NextRow(cs, p).sha, p.(seeking := true);
    assert Claim(f)[s] == 0;
    HeldIs(p, s);
    assert s !in multiset(Shas(p.was));
    assert Unheld(p', s);
    forall x
      ensures Even(p', x)
    {
      assert Even(p, x);
    }
  }

  lemma SeekFair(cs: nat, f: File, g: Shared, f': File)
    requires cs > 0 && Solvent(cs, f, g) && f.proc.Working? && Scanning(cs, f.proc.p)
    requires var p, r := f.proc.p, NextRow(cs, f.proc.p);
             r.sha !in p.pending && r.sha !in g.blobs && f' == f.(proc := Working(p.(seeking := true)))
    ensures Fair(cs, f, g, f', g)
  {
    SeekInv(cs, f, g, f.proc.p);
    assert f'.proc.p.Unregistered() == f.proc.p.Unregistered();
    assert Carried(f') == Carried(f) && Claim(f') == Claim(f);
    PassedSame(Carried(f), g, g);
  }

  lemma SubmitClaims(cs: nat, f: File, p: Put, live: map<Handle, Data>, r: Row, f': File)
    requires cs > 0 && f.proc == Working(p) && PutInv(cs, f, p, live) && Scanning(cs, p) && r == NextRow(cs, p) && p.seeking
    requires f' == f.(proc := Working(p.(rows := p.rows + [r], acquired := p.acquired + [r.sha],
                                         pending := p.pending[r.sha := Queued], seeking := false)))
    ensures FileInv(cs, f', live) && Carried(f') == Carried(f)
    ensures forall s :: Claim(f')[s] == Claim(f)[s]
  {
    AcquireNext(cs, f, p, live, r, p.pending[r.sha := Queued]);
    SubmitClaimsSame(f, p, r, f');
  }

  lemma SubmitClaimsSame(f: File, p: Put, r: Row, f': File)
    requires f.proc == Working(p) && r.sha !in p.pending && Takes(p.acquired, {}, r.sha) == 0
    requires f' == f.(proc := Working(p.(rows := p.rows + [r], acquired := p.acquired + [r.sha],
                                         pending := p.pending[r.sha := Queued], seeking := false)))
    ensures forall s :: Claim(f')[s] == Claim(f)[s]
  {
    forall s
      ensures Claim(f')[s] == Claim(f)[s]
    {
      HeldNext(p, r, s);
    }
  }

  /** By the time a slot is free another call may have registered the sha: the upload will find that out. */
  lemma SubmitBalances(cs: nat, f: File, g: Shared, f': File)
    requires cs > 0 && Solvent(cs, f, g) && f.proc.Working? && Scanning(cs, f.proc.p) && f.proc.p.seeking
    requires var p, r := f.proc.p, NextRow(cs, f.proc.p);
             f' == f.(proc := Working(p.(rows := p.rows + [r], acquired := p.acquired + [r.sha],
                                         pending := p.pending[r.sha := Queued], seeking := false)))
    ensures Fair(cs, f, g, f', g)
  {
    SubmitClaims(cs, f, f.proc.p, g.live, NextRow(cs, f.proc.p), f');
    PassedSame(Carried(f), g, g);
  }

  lemma RepeatInv(cs: nat, f: File, p: Put, live: map<Handle, Data>, r: Row)
    requires cs > 0 && PutInv(cs, f, p, live) && Scanning(cs, p) && r == NextRow(cs, p) && r.sha in p.pending && !p.seeking
    ensures PutInv(cs, f, p.(rows := p.rows + [r], dups := p.dups + [r.sha]), live)
  {
    RepeatEven(p, r, p.(rows := p.rows + [r], dups := p.dups + [r.sha]));
  }

  lemma RepeatEven(p: Put, r: Row, p': Put)
    requires p.settled <= |p.dups| && (forall s :: Even(p, s)) && p' == p.(rows := p.rows + [r], dups := p.dups + [r.sha])
    ensures forall s :: Even(p', s)
    ensures forall s :: Tally(p'.dups, p'.settled, {}, s) == Tally(p.dups, p.settled, {}, s)
  {
    forall s
      ensures Even(p', s)
      ensures Tally(p'.dups, p'.settled, {}, s) == Tally(p.dups, p.settled, {}, s)
    {
      EvenNext(p, r, s);
      TallySame(p.dups, p'.dups, p.settled, {}, {}, s);
    }
  }

  lemma RepeatBalances(cs: nat, f: File, g: Shared, f': File)
    requires cs > 0 && Solvent(cs, f, g) && f.proc.Working? && Scanning(cs, f.proc.p)
    requires var p, r := f.proc.p, NextRow(cs, f.proc.p);
             r.sha in p.pending && !p.seeking && f' == f.(proc := Working(p.(rows := p.rows + [r], dups := p.dups + [r.sha])))
    ensures Fair(cs, f, g, f', g)
  {
    var p, p' := f.proc.p, f'.proc.p;
    RepeatInv(cs, f, p, g.live, NextRow(cs, p));
    assert p'.Unregistered() == p.Unregistered() && p'.Held() == p.Held();
    PassedSame(Carried(f), g, g);
  }

  lemma SettleInv(cs: nat, f: File, p: Put, live: map<Handle, Data>)
    requires cs > 0 && PutInv(cs, f, p, live) && !Scanning(cs, p) && AllDone(p) && p.settled < |p.dups|
    ensures PutInv(cs, f, p.(acquired := p.acquired + [p.dups[p.settled]], settled := p.settled + 1), live)
  {
    var x := p.dups[p.settled];
    var p' := p.(acquired := p.acquired + [x], settled := p.settled + 1);
    forall s
      ensures Even(p', s)
      ensures Takes(p'.acquired, {}, s) == Takes(p.acquired, {}, s) + if s == x then 1 else 0
      ensures Tally(p'.dups, p'.settled, {}, s) == Tally(p.dups, p.settled, {}, s) + if s == x then 1 else 0
    {
      assert Even(p, s);
      TakesAppend(p.acquired, {}, x, s);
    }
  }

  lemma SettleClaims(p: Put, p': Put, x: Sha)
    requires AllDone(p) && x in p.pending && p' == p.(acquired := p.acquired + [x], settled := p.settled + 1)
    ensures forall s :: p'.Held()[s] == p.Held()[s] + if s == x then 1 else 0
  {
    assert p.Unregistered() == {} && p'.Unregistered() == {};
    forall s
      ensures p'.Held()[s] == p.Held()[s] + if s == x then 1 else 0
    {
      HeldIs(p, s);
      HeldIs(p', s);
      TakesAppend(p.acquired, {}, x, s);
    }
  }

  lemma SettleBalances(cs: nat, f: File, g: Shared, f': File, g': Shared)
    requires cs > 0 && Solvent(cs, f, g)
    requires f.proc.Working? && !Scanning(cs, f.proc.p) && AllDone(f.proc.p) && f.proc.p.settled < |f.proc.p.dups|
    requires var p := f.proc.p;
             var s := p.dups[p.settled];
             && g' == g.(blobs := if s in g.blobs then Incref(g.blobs, s) else g.blobs)
             && f' == f.(proc := Working(p.(acquired := p.acquired + [s], settled := p.settled + 1)))
    ensures Fair(cs, f, g, f', g')
  {
    var p, x := f.proc.p, f.proc.p.dups[f.proc.p.settled];
    assert x in p.dups && x in p.pending;
    SettleKnown(cs, f, g, p, x);
    IncrefKeeps(g, x);
    SettleClaims(p, f'.proc.p, x);
    SettleInv(cs, f, p, g.live);
    assert Carried(f') == Carried(f);
    PassedSame(Carried(f), g, g');
  }

  /** A repeat to settle has its blob: this call's own upload registered it. */
  lemma SettleKnown(cs: nat, f: File, g: Shared, p: Put, x: Sha)
    requires cs > 0 && Solvent(cs, f, g) && f.proc == Working(p) && AllDone(p) && x in p.pending
    ensures x in g.blobs
  {
    assert p.Unregistered() == {};
    HeldIs(p, x);
    assert Claim(f)[x] > 0;
  }

  // ----- upload tasks ----------------------------------------------------------------------

  /** A task that is not done keeps the call before its repeats, so changing it disturbs no count. */
  lemma TaskInv(cs: nat, f: File, p: Put, live: map<Handle, Data>, s: Sha, t: Task, live': map<Handle, Data>)
    requires cs > 0 && PutInv(cs, f, p, live) && s in p.pending && !p.pending[s].Done?
    requires t.Carries() ==> t.handle in live' && live'[t.handle] == Pre(s)
    requires forall x :: x in p.pending && x != s && p.pending[x].Carries() ==>
               p.pending[x].handle in live' && live'[p.pending[x].handle] == Pre(x)
    ensures PutInv(cs, f, WithTask(p, s, t), live')
  {
    var p' := WithTask(p, s, t);
    assert p.settled == 0;
    forall x
      ensures Even(p', x)
    {
      assert Even(p, x);
    }
  }

  lemma TaskHeld(p: Put, s: Sha, t: Task, x: Sha)
    requires s in p.pending && (p.pending[s].Registered() ==> t.Registered())
    ensures WithTask(p, s, t).Held()[x] == p.Held()[x]
            + if x == s && t.Registered() && !p.pending[s].Registered() then Takes(p.acquired, {}, s) else 0
  {
    var p' := WithTask(p, s, t);
    HeldIs(p, x);
    HeldIs(p', x);
    assert x in p'.Unregistered() <==> if x == s then !t.Registered() else x in p.Unregistered();
  }

  /** The handles in hand after a task changed: those of the other tasks and the new one. */
  lemma TaskCarried(p: Put, s: Sha, t: Task, h: Handle)
    requires s in p.pending
    requires forall x, y :: x in p.pending && y in p.pending && x != y && p.pending[x].Carries() && p.pending[y].Carries()
               ==> p.pending[x].handle != p.pending[y].handle
    ensures h in TaskHandles(p.pending[s := t]) <==>
            (t.Carries() && t.handle == h)
            || (h in TaskHandles(p.pending) && !(p.pending[s].Carries() && p.pending[s].handle == h))
  {
    var q := p.pending[s := t];
    if h in TaskHandles(p.pending) && !(p.pending[s].Carries() && p.pending[s].handle == h) {
      var x :| x in p.pending && p.pending[x].Carries() && p.pending[x].handle == h;
      assert q[x] == p.pending[x];
    }
    if h in TaskHandles(q) && !(t.Carries() && t.handle == h) {
      var x :| x in q && q[x].Carries() && q[x].handle == h;
      assert p.pending[x] == q[x];
    }
    if t.Carries() && t.handle == h {
      assert q[s] == t;
    }
  }

  lemma TasksDistinct(cs: nat, f: File, p: Put, live: map<Handle, Data>)
    requires cs > 0 && PutInv(cs, f, p, live)
    ensures forall x, y :: x in p.pending && y in p.pending && x != y && p.pending[x].Carries() && p.pending[y].Carries()
              ==> p.pending[x].handle != p.pending[y].handle
  {
  }

  /** A task's own handle is carried. */
  lemma TaskOwns(pending: map<Sha, Task>, s: Sha)
    requires s in pending && pending[s].Carries()
    ensures pending[s].handle in TaskHandles(pending)
  {
  }

  function HandleOf(t: Task): set<Handle> {
    if t.Carries() then {t.handle} else {}
  }

  /** Handles in hand after a task changed. */
  lemma CarriedTask(cs: nat, f: File, live: map<Handle, Data>, s: Sha, t: Task, f': File)
    requires cs > 0 && HasTask(f.proc, s) && PutInv(cs, f, f.proc.p, live) && f' == f.(proc := SetTask(f.proc, s, t))
    ensures HandleOf(f.proc.p.pending[s]) <= Carried(f)
    ensures Carried(f') == Carried(f) - HandleOf(f.proc.p.pending[s]) + HandleOf(t)
  {
    var p := f.proc.p;
    TasksDistinct(cs, f, p, live);
    if p.pending[s].Carries() {
      TaskOwns(p.pending, s);
    }
    forall h {
      TaskCarried(p, s, t, h);
    }
    assert Carried(f) == TaskHandles(p.pending) && Carried(f') == TaskHandles(p.pending[s := t]);
  }

  /** Queued to Failed or Cancelled: nothing was done, nothing is owed. */
  lemma QuietTaskFair(cs: nat, f: File, g: Shared, s: Sha, t: Task, f': File)
    requires cs > 0 && Solvent(cs, f, g) && HasTask(f.proc, s) && f.proc.p.pending[s].Queued?
    requires (t.Failed? || t.Cancelled?) && f' == f.(proc := SetTask(f.proc, s, t))
    ensures Fair(cs, f, g, f', g)
  {
    var p := f.proc.p;
    TaskInv(cs, f, p, g.live, s, t, g.live);
    TaskClaims(f, s, t, f');
    CarriedTask(cs, f, g.live, s, t, f');
    assert Carried(f') == Carried(f);
    PassedSame(Carried(f), g, g);
  }

  /** A task that neither had nor gets a reference, or keeps the one it had. */
  lemma QuietBalanced(f: File, s: Sha, t: Task, f': File, blobs: BlobTable)
    requires HasTask(f.proc, s) && (f.proc.p.pending[s].Registered() <==> t.Registered()) && f' == f.(proc := SetTask(f.proc, s, t))
    ensures Balanced(Claim(f), blobs, Claim(f'), blobs)
  {
    TaskClaims(f, s, t, f');
  }

  lemma UploadFair(cs: nat, f: File, g: Shared, s: Sha, f': File, g': Shared)
    requires cs > 0 && Solvent(cs, f, g) && HasTask(f.proc, s) && f.proc.p.pending[s].Queued?
    requires f' == f.(proc := SetTask(f.proc, s, Uploaded(g.next)))
    requires g' == g.(live := g.live[g.next := Pre(s)], next := g.next + 1)
    ensures Fair(cs, f, g, f', g')
  {
    var p, t := f.proc.p, Uploaded(g.next);
    UploadTaskInv(cs, f, p, g, s, t, g'.live);
    QuietBalanced(f, s, t, f', g.blobs);
    CarriedTask(cs, f, g.live, s, t, f');
    assert Carried(f') == Carried(f) + {g.next};
    PassedUpload(Carried(f), g, Pre(s));
  }

  lemma UploadTaskInv(cs: nat, f: File, p: Put, g: Shared, s: Sha, t: Task, live': map<Handle, Data>)
    requires cs > 0 && PutInv(cs, f, p, g.live) && BlobsLive(g) && s in p.pending && p.pending[s].Queued?
    requires t == Uploaded(g.next) && live' == g.live[g.next := Pre(s)]
    ensures PutInv(cs, f, WithTask(p, s, t), live')
  {
    TaskInv(cs, f, p, g.live, s, t, live');
  }

  /** Claims follow the task's registration. */
  lemma TaskClaims(f: File, s: Sha, t: Task, f': File)
    requires HasTask(f.proc, s) && f' == f.(proc := SetTask(f.proc, s, t))
    requires f.proc.p.pending[s].Registered() ==> t.Registered()
    ensures forall x :: Claim(f')[x] == Claim(f)[x]
              + if x == s && t.Registered() && !f.proc.p.pending[s].Registered() then Takes(f.proc.p.acquired, {}, s) else 0
  {
    forall x {
      TaskHeld(f.proc.p, s, t, x);
    }
  }

  /** A task that got a reference registers it: the count and the claim both go up by one. */
  lemma RegisterBalanced(f: File, s: Sha, t: Task, f': File, blobs: BlobTable, blobs': BlobTable)
    requires HasTask(f.proc, s) && !f.proc.p.pending[s].Registered() && t.Registered() && f' == f.(proc := SetTask(f.proc, s, t))
    requires Takes(f.proc.p.acquired, {}, s) == 1
    requires forall x :: Ref(blobs', x) == Ref(blobs, x) + if x == s then 1 else 0
    ensures Balanced(Claim(f), blobs, Claim(f'), blobs')
  {
    TaskClaims(f, s, t, f');
  }

  lemma HeldOnce(cs: nat, f: File, p: Put, live: map<Handle, Data>, s: Sha)
    requires cs > 0 && PutInv(cs, f, p, live) && s in p.pending && !p.pending[s].Done?
    ensures Takes(p.acquired, {}, s) == 1
  {
    assert p.settled == 0;
  }

  /** Registering first: the blob row takes over the handle and the reference the call was promised. */
  lemma RegisterNewFair(cs: nat, f: File, g: Shared, s: Sha, f': File, g': Shared)
    requires cs > 0 && Solvent(cs, f, g) && HasTask(f.proc, s) && f.proc.p.pending[s].Uploaded? && s !in g.blobs
    requires f' == f.(proc := SetTask(f.proc, s, Done))
    requires g' == g.(blobs := g.blobs[s := Blob(f.proc.p.pending[s].handle, |Pre(s)|, 1)])
    ensures Fair(cs, f, g, f', g')
  {
    RegisterInv(cs, f, g, s, f', g'.blobs);
    RegisterPassed(cs, f, g, s, f');
  }

  lemma RegisterInv(cs: nat, f: File, g: Shared, s: Sha, f': File, blobs': BlobTable)
    requires cs > 0 && HasTask(f.proc, s) && PutInv(cs, f, f.proc.p, g.live) && f.proc.p.pending[s].Uploaded? && s !in g.blobs
    requires f' == f.(proc := SetTask(f.proc, s, Done)) && blobs' == g.blobs[s := Blob(f.proc.p.pending[s].handle, |Pre(s)|, 1)]
    ensures FileInv(cs, f', g.live) && Balanced(Claim(f), g.blobs, Claim(f'), blobs')
  {
    TaskInv(cs, f, f.proc.p, g.live, s, Done, g.live);
    HeldOnce(cs, f, f.proc.p, g.live, s);
    RegisterBalanced(f, s, Done, f', g.blobs, blobs');
  }

  lemma RegisterPassed(cs: nat, f: File, g: Shared, s: Sha, f': File)
    requires cs > 0 && HasTask(f.proc, s) && PutInv(cs, f, f.proc.p, g.live) && f.proc.p.pending[s].Uploaded? && s !in g.blobs
    requires BlobsLive(g) && InHand(Carried(f), g) && f' == f.(proc := SetTask(f.proc, s, Done))
    ensures var g' := g.(blobs := g.blobs[s := Blob(f.proc.p.pending[s].handle, |Pre(s)|, 1)]);
            BlobsLive(g') && Passed(Carried(f), g, Carried(f'), g')
  {
    var h0 := f.proc.p.pending[s].handle;
    CarriedTask(cs, f, g.live, s, Done, f');
    assert Carried(f') == Carried(f) - {h0};
    PassedRegister(Carried(f), g, s, h0);
  }

  /** Losing the race: the call shares the winner's blob and still has its own copy to delete. */
  lemma RegisterLostFair(cs: nat, f: File, g: Shared, s: Sha, f': File, g': Shared)
    requires cs > 0 && Solvent(cs, f, g) && HasTask(f.proc, s) && f.proc.p.pending[s].Uploaded? && s in g.blobs
    requires f' == f.(proc := SetTask(f.proc, s, Losing(f.proc.p.pending[s].handle)))
    requires g' == g.(blobs := Incref(g.blobs, s))
    ensures Fair(cs, f, g, f', g')
  {
    var t := Losing(f.proc.p.pending[s].handle);
    IncrefKeeps(g, s);
    LosingInv(cs, f, g, s, t, f', g'.blobs);
    PassedSame(Carried(f), g, g');
  }

  lemma LosingInv(cs: nat, f: File, g: Shared, s: Sha, t: Task, f': File, blobs': BlobTable)
    requires cs > 0 && HasTask(f.proc, s) && PutInv(cs, f, f.proc.p, g.live) && f.proc.p.pending[s].Uploaded?
    requires t == Losing(f.proc.p.pending[s].handle) && f' == f.(proc := SetTask(f.proc, s, t))
    requires forall x :: Ref(blobs', x) == Ref(g.blobs, x) + if x == s then 1 else 0
    ensures FileInv(cs, f', g.live) && Balanced(Claim(f), g.blobs, Claim(f'), blobs') && Carried(f') == Carried(f)
  {
    TaskInv(cs, f, f.proc.p, g.live, s, t, g.live);
    TaskOwns(f.proc.p.pending, s);
    HeldOnce(cs, f, f.proc.p, g.live, s);
    RegisterBalanced(f, s, t, f', g.blobs, blobs');
    CarriedTask(cs, f, g.live, s, t, f');
  }

  lemma DropCopyFair(cs: nat, f: File, g: Shared, s: Sha, f': File, g': Shared)
    requires cs > 0 && Solvent(cs, f, g) && HasTask(f.proc, s) && f.proc.p.pending[s].Losing?
    requires f' == f.(proc := SetTask(f.proc, s, Done))
    requires g' == g.(live := g.live - {f.proc.p.pending[s].handle})
    ensures Fair(cs, f, g, f', g')
  {
    var p := f.proc.p;
    var h0 := p.pending[s].handle;
    TaskInv(cs, f, p, g.live, s, Done, g'.live);
    TaskOwns(p.pending, s);
    TaskClaims(f, s, Done, f');
    CarriedTask(cs, f, g.live, s, Done, f');
    assert Carried(f') == Carried(f) - {h0};
    PassedDelete(Carried(f), g, h0);
  }

  // ----- publishing and dropping references ------------------------------------------------

  /** With every upload done and every repeat settled, the call holds exactly one reference per row of its list. */
  lemma AllSettled(cs: nat, f: File, p: Put, live: map<Handle, Data>)
    requires cs > 0 && PutInv(cs, f, p, live) && AllDone(p) && p.settled == |p.dups|
    ensures p.Held() == Bag(p.rows)
  {
    assert p.Unregistered() == {};
    forall s
      ensures p.Held()[s] == Bag(p.rows)[s]
    {
      HeldIs(p, s);
      assert Even(p, s);
    }
  }

  lemma PublishFair(cs: nat, f: File, g: Shared, f': File)
    requires cs > 0 && Solvent(cs, f, g)
    requires f.proc.Working? && !Scanning(cs, f.proc.p) && AllDone(f.proc.p) && f.proc.p.settled == |f.proc.p.dups|
    requires f' == f.(rows := f.proc.p.rows, proc := Published(f.proc.p))
    ensures Fair(cs, f, g, f', g)
  {
    var p := f.proc.p;
    AllSettled(cs, f, p, g.live);
    assert p.rows == PutRows(p.src, cs, p.was, p.dirty);
    NothingCarried(p);
    PassedSame({}, g, g);
  }

  lemma NothingCarried(p: Put)
    requires AllFinished(p) || AllDone(p)
    ensures TaskHandles(p.pending) == {}
  {
  }

  lemma BagIsOwed(rows: seq<Row>)
    ensures Owed(Shas(rows), {}) == Bag(rows)
  {
    forall s
      ensures Owed(Shas(rows), {})[s] == Bag(rows)[s]
    {
      TakesIsCount(Shas(rows), {}, s);
    }
  }

  /** Steps that only rename what the file already claims. */
  lemma RenameFair(cs: nat, f: File, g: Shared, f': File)
    requires cs > 0 && Solvent(cs, f, g) && FileInv(cs, f', g.live)
    requires Claim(f') == Claim(f) && Carried(f') == Carried(f)
    ensures Fair(cs, f, g, f', g)
  {
    PassedSame(Carried(f), g, g);
  }

  lemma StartFair(cs: nat, f: File, g: Shared, f': File)
    requires cs > 0 && Solvent(cs, f, g) && f.proc.Idle?
    requires f'.proc.Working? && f' == f.(proc := f'.proc)
    requires var p := f'.proc.p; p == Put(p.src, p.dirty, f.rows, [], [], map[], [], 0, false)
    ensures Fair(cs, f, g, f', g)
  {
    StartInv(cs, f, f'.proc.p, g.live);
    RenameFair(cs, f, g, f');
  }

  lemma SetSizeFair(cs: nat, f: File, g: Shared, f': File)
    requires cs > 0 && Solvent(cs, f, g) && f.proc.Published?
    requires f' == f.(size := |f.proc.p.src|, proc := Dropping(Replaced, Shas(f.proc.p.was), None))
    ensures Fair(cs, f, g, f', g)
  {
    BagIsOwed(f.proc.p.was);
    RenameFair(cs, f, g, f');
  }

  lemma RollbackFair(cs: nat, f: File, g: Shared, f': File)
    requires cs > 0 && Solvent(cs, f, g) && f.proc.Stopping? && AllFinished(f.proc.p)
    requires f' == f.(proc := Dropping(RolledBack(f.proc.p), f.proc.p.acquired, None))
    ensures Fair(cs, f, g, f', g)
  {
    NothingCarried(f.proc.p);
    RenameFair(cs, f, g, f');
  }

  lemma FreeFair(cs: nat, f: File, g: Shared, f': File)
    requires cs > 0 && Solvent(cs, f, g) && f.proc.Idle?
    requires f' == f.(proc := Dropping(Freed, Shas(f.rows), None))
    ensures Fair(cs, f, g, f', g)
  {
    BagIsOwed(f.rows);
    RenameFair(cs, f, g, f');
  }

  lemma FinishFair(cs: nat, f: File, g: Shared, f': File)
    requires cs > 0 && Solvent(cs, f, g)
    requires f.proc.Dropping? && f.proc.todo == [] && f.proc.deleting.None?
    requires f' == File(if f.proc.why.Freed? then [] else f.rows, if f.proc.why.Freed? then 0 else f.size, Idle)
    ensures Fair(cs, f, g, f', g)
  {
    assert Owed(f.proc.todo, Skipped(f.proc.why)) == multiset{};
    assert Bag([]) == multiset{};
    RenameFair(cs, f, g, f');
  }

  lemma StartInv(cs: nat, f: File, p: Put, live: map<Handle, Data>)
    requires cs > 0 && p == Put(p.src, p.dirty, f.rows, [], [], map[], [], 0, false)
    ensures PutInv(cs, f, p, live) && p.Held() == multiset{} && TaskHandles(p.pending) == {}
  {
    assert Bag([]) == multiset{};
    forall s
      ensures Even(p, s)
    {
    }
  }

  lemma OwedHead(todo: seq<Sha>, skip: set<Sha>, s: Sha)
    requires todo != []
    ensures Owed(todo, skip)[s] == Owed(todo[1..], skip)[s] + if s == todo[0] && s !in skip then 1 else 0
  {
    TakesIsCount(todo, skip, s);
    TakesIsCount(todo[1..], skip, s);
    assert todo == [todo[0]] + todo[1..];
    assert multiset(todo) == multiset{todo[0]} + multiset(todo[1..]);
  }

  lemma PassedDecref(g: Shared, s: Sha)
    requires BlobsLive(g) && s in g.blobs
    ensures var g' := g.(blobs := Decref(g.blobs, s));
            var o := Orphan(g.blobs, s);
            && BlobsLive(g') && Passed({}, g, if o.Some? then {o.value} else {}, g')
            && (forall x :: Ref(g'.blobs, x) + (if x == s then 1 else 0) == Ref(g.blobs, x))
  {
    var g' := g.(blobs := Decref(g.blobs, s));
    forall h
      ensures Named(g', h) <==> Named(g, h) && (Orphan(g.blobs, s) == None || h != g.blobs[s].handle)
    {
    }
  }

  lemma DropClaims(f: File, f': File, x: Sha)
    requires f.proc.Dropping? && f.proc.todo != []
    requires f'.rows == f.rows && f'.proc.Dropping? && f'.proc.why == f.proc.why && f'.proc.todo == f.proc.todo[1..]
    ensures Claim(f)[x] == Claim(f')[x] + if x == f.proc.todo[0] && x !in Skipped(f.proc.why) then 1 else 0
  {
    OwedHead(f.proc.todo, Skipped(f.proc.why), x);
  }

  lemma DropFair(cs: nat, f: File, g: Shared, f': File, g': Shared)
    requires cs > 0 && Solvent(cs, f, g)
    requires f.proc.Dropping? && f.proc.todo != [] && f.proc.deleting.None? && f.proc.todo[0] !in Skipped(f.proc.why)
    requires g' == g.(blobs := Decref(g.blobs, f.proc.todo[0]))
    requires f' == f.(proc := Dropping(f.proc.why, f.proc.todo[1..], Orphan(g.blobs, f.proc.todo[0])))
    ensures Fair(cs, f, g, f', g')
  {
    DropBalanced(cs, f, g, f', f.proc.todo[0], g'.blobs);
    PassedDecref(g, f.proc.todo[0]);
  }

  lemma DropBalanced(cs: nat, f: File, g: Shared, f': File, s: Sha, blobs': BlobTable)
    requires cs > 0 && Solvent(cs, f, g) && f.proc.Dropping? && f.proc.todo != [] && s == f.proc.todo[0] && s !in Skipped(f.proc.why)
    requires f'.rows == f.rows && f'.proc.Dropping? && f'.proc.why == f.proc.why && f'.proc.todo == f.proc.todo[1..]
    requires blobs' == Decref(g.blobs, s)
    ensures s in g.blobs && Balanced(Claim(f), g.blobs, Claim(f'), blobs')
  {
    forall x {
      DropClaims(f, f', x);
    }
    assert Claim(f)[s] > 0;
    PassedDecref(g, s);
  }

  lemma SkipFair(cs: nat, f: File, g: Shared, f': File)
    requires cs > 0 && Solvent(cs, f, g)
    requires f.proc.Dropping? && f.proc.todo != [] && f.proc.deleting.None? && f.proc.todo[0] in Skipped(f.proc.why)
    requires f' == f.(proc := Dropping(f.proc.why, f.proc.todo[1..], None))
    ensures Fair(cs, f, g, f', g)
  {
    forall x {
      DropClaims(f, f', x);
    }
    PassedSame({}, g, g);
  }

  /** What an upload in the background may do. */
  predicate TaskAct(act: Act) {
    act.Upload? || act.Fail? || act.Register? || act.DropCopy? || act.Cancel?
  }

  lemma TaskFair(cs: nat, workers: nat, act: Act, f: File, g: Shared, f': File, g': Shared)
    requires cs > 0 && Solvent(cs, f, g) && Does(cs, workers, act, f, g, f', g') && TaskAct(act)
    ensures Fair(cs, f, g, f', g')
  {
    match act
    case Upload(s) => UploadFair(cs, f, g, s, f', g');
    case Fail(s) => QuietTaskFair(cs, f, g, s, Failed, f');
    case Register(s) =>
      if s !in g.blobs {
        RegisterNewFair(cs, f, g, s, f', g');
      } else {
        RegisterLostFair(cs, f, g, s, f', g');
      }
    case DropCopy(s) => DropCopyFair(cs, f, g, s, f', g');
    case Cancel(s) => QuietTaskFair(cs, f, g, s, Cancelled, f');
  }

  /** What a call does once its list is settled one way or the other. */
  predicate EndAct(act: Act) {
    act.Abort? || act.Rollback? || act.Free? || act.Drop? || act.Skip? || act.Delete? || act.Finish?
  }

  lemma EndFair(cs: nat, workers: nat, act: Act, f: File, g: Shared, f': File, g': Shared)
    requires cs > 0 && Solvent(cs, f, g) && Does(cs, workers, act, f, g, f', g') && EndAct(act)
    ensures Fair(cs, f, g, f', g')
  {
    match act
    case Abort => RenameFair(cs, f, g, f');
    case Rollback => RollbackFair(cs, f, g, f');
    case Free => FreeFair(cs, f, g, f');
    case Drop => DropFair(cs, f, g, f', g');
    case Skip => SkipFair(cs, f, g, f');
    case Delete => PassedDelete(Carried(f), g, f.proc.deleting.value);
    case Finish => FinishFair(cs, f, g, f');
  }

  /** Every step of every call is fair to everyone else. */
  lemma ActFair(cs: nat, workers: nat, act: Act, f: File, g: Shared, f': File, g': Shared)
    requires cs > 0 && Solvent(cs, f, g) && Does(cs, workers, act, f, g, f', g')
    ensures Fair(cs, f, g, f', g')
  {
    if TaskAct(act) {
      TaskFair(cs, workers, act, f, g, f', g');
      return;
    }
    if EndAct(act) {
      EndFair(cs, workers, act, f, g, f', g');
      return;
    }
    match act
    case Start(_, _) => StartFair(cs, f, g, f');
    case Keep =>
      CleanKnown(cs, f, g);
      TakeKnown(cs, f, g, f', g');
    case Repeat => RepeatBalances(cs, f, g, f');
    case Know => TakeKnown(cs, f, g, f', g');
    case Seek => SeekFair(cs, f, g, f');
    case Submit => SubmitBalances(cs, f, g, f');
    case Settle => SettleBalances(cs, f, g, f', g');
    case Publish => PublishFair(cs, f, g, f');
    case SetSize => SetSizeFair(cs, f, g, f');
    case _ => assert false;
  }

  // ----- the whole system ------------------------------------------------------------------

  lemma SolventHere(cs: nat, w: World, ino: Ino)
    requires cs > 0 && Inv(cs, w) && ino in w.files
    ensures Solvent(cs, w.files[ino], w.shared)
  {
    forall s
      ensures Claim(w.files[ino])[s] <= Ref(w.shared.blobs, s)
    {
      GatherHas(Claims(w.files), ino, s);
    }
  }

  lemma ClaimsMove(files: map<Ino, File>, files': map<Ino, File>, ino: Ino, m: map<Ino, multiset<Sha>>, m': map<Ino, multiset<Sha>>)
    requires ino in files && ino in files' && files' == files[ino := files'[ino]] && m == Claims(files) && m' == Claims(files')
    ensures ino in m && ino in m' && m[ino] == Claim(files[ino]) && m'[ino] == Claim(files'[ino]) && m' == m[ino := m'[ino]]
  {
  }

  lemma StepKeepsRefs(cs: nat, workers: nat, w: World, ino: Ino, act: Act, w': World, s: Sha)
    requires cs > 0 && Inv(cs, w) && Step(cs, workers, w, ino, act, w')
    requires Balanced(Claim(w.files[ino]), w.shared.blobs, Claim(w'.files[ino]), w'.shared.blobs)
    ensures Ref(w'.shared.blobs, s) == Gather(Claims(w'.files))[s]
  {
    var m, m' := Claims(w.files), Claims(w'.files);
    ClaimsMove(w.files, w'.files, ino, m, m');
    GatherUpdateAt(m, m', ino, s);
  }

  /** What the others rely on is left alone by a fair step. */
  lemma OthersKept(cs: nat, w: World, ino: Ino, w': World, j: Ino)
    requires cs > 0 && Inv(cs, w) && ino in w.files && ino in w'.files && j in w.files && j != ino
    requires Passed(Carried(w.files[ino]), w.shared, Carried(w'.files[ino]), w'.shared)
    ensures FileInv(cs, w.files[j], w'.shared.live)
    ensures InHand(Carried(w.files[j]), w'.shared)
    ensures forall h :: h in Carried(w.files[j]) ==> h !in Carried(w'.files[ino])
  {
    var f := w.files[j];
    forall h | h in Carried(f)
      ensures h in w'.shared.live && w'.shared.live[h] == w.shared.live[h]
    {
      assert h !in Carried(w.files[ino]);
    }
    if f.proc.Working? || f.proc.Stopping? {
      forall s | s in f.proc.p.pending && f.proc.p.pending[s].Carries() {
        TaskOwns(f.proc.p.pending, s);
      }
    }
  }

  /** Each live handle is named or in somebody's hand after the step as before. */
  lemma OwnersKept(cs: nat, w: World, ino: Ino, w': World, h: Handle)
    requires cs > 0 && Inv(cs, w) && ino in w.files && w'.files.Keys == w.files.Keys && w'.files == w.files[ino := w'.files[ino]]
    requires Passed(Carried(w.files[ino]), w.shared, Carried(w'.files[ino]), w'.shared)
    requires h in w'.shared.live && !Named(w'.shared, h)
    ensures exists i :: i in w'.files && h in Carried(w'.files[i])
  {
    if h in Carried(w'.files[ino]) {
    } else {
      assert h in w.shared.live && !Named(w.shared, h);
      var i :| i in w.files && h in Carried(w.files[i]);
      assert i != ino;
      assert w'.files[i] == w.files[i];
    }
  }

  /** The invariant holds after any step of any call, whatever the others are in the middle of. */
  lemma StepKeeps(cs: nat, workers: nat, w: World, ino: Ino, act: Act, w': World)
    requires cs > 0 && Inv(cs, w) && Step(cs, workers, w, ino, act, w')
    ensures Inv(cs, w')
  {
    SolventHere(cs, w, ino);
    ActFair(cs, workers, act, w.files[ino], w.shared, w'.files[ino], w'.shared);
    forall s {
      StepKeepsRefs(cs, workers, w, ino, act, w', s);
    }
    forall j | j in w.files && j != ino
      ensures FileInv(cs, w'.files[j], w'.shared.live) && InHand(Carried(w'.files[j]), w'.shared)
      ensures forall h :: h in Carried(w'.files[j]) ==> h !in Carried(w'.files[ino])
    {
      OthersKept(cs, w, ino, w', j);
    }
    forall h | h in w'.shared.live && !Named(w'.shared, h)
      ensures exists i :: i in w'.files && h in Carried(w'.files[i])
    {
      OwnersKept(cs, w, ino, w', h);
    }
  }
}
