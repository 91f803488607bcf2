/** The filesystem operations: names, open handles, and files unlinked while they are still open. */
module FsCore {
  import opened Bytes
  import opened Blobs
  import opened Tables
  import opened Store
  import opened FlushFile
  import opened Exposure
  import opened FileState
  import opened Writeback
  import opened Traces
  import opened Paths
  import opened Tree

  datatype Errno = ENOENT | EEXIST | EISDIR | ENOTDIR | ENOTEMPTY | EPERM | EBADF | EIO
  datatype Result<+T> = Ok(value: T) | Err(errno: Errno)

  type Handles = map<nat, FileState>

  /** The open handles on an inode. */
  ghost function HandlesOf(fh: Handles, ino: Ino): set<nat> {
    set h | h in fh && fh[h].ino == ino
  }

  predicate IsOpen(fh: Handles, ino: Ino) {
    exists h :: h in fh && fh[h].ino == ino
  }

  /** How many handles each state believes it has. */
  ghost function Refs(states: map<Ino, FileState>): map<Ino, nat>
    reads states.Values
  {
    map i | i in states :: states[i].refcount
  }

  /** Every handle leads to its inode's shared state, which counts exactly its handles. */
  ghost predicate HandlesCounted(fh: Handles, states: map<Ino, FileState>, refs: map<Ino, nat>, fhSeq: nat) {
    && (forall h :: h in fh ==> h < fhSeq && fh[h].ino in states && states[fh[h].ino] == fh[h])
    && refs.Keys == states.Keys && (forall i :: i in refs ==> refs[i] == |HandlesOf(fh, i)|)
  }

  /** Each inode number ever given out is in the tree, unlinked but still held, or freed: exactly one of the three. */
  ghost predicate Lives(rows: set<Ino>, pending: set<Ino>, freed: set<Ino>, next: nat) {
    && rows !! pending && rows !! freed && pending !! freed
    && forall i :: i in rows || i in pending || i in freed <==> ROOT_INO <= i < next
  }

  /** Chunk rows and writeback states belong to inodes that have a row or are still held. */
  ghost predicate Owned(rows: set<Ino>, pending: set<Ino>, keys: set<Ino>) {
    forall i :: i in keys ==> i in rows || i in pending
  }

  /** An unlinked inode is kept only while a handle is open on it, or because its last close failed. */
  ghost predicate Held(fh: Handles, pending: set<Ino>, stranded: set<Ino>) {
    stranded <= pending && forall i :: i in pending ==> (IsOpen(fh, i) <==> i !in stranded)
  }

  /** The three together, for chunk rows and for writeback states. */
  ghost predicate Settled(b: Books) {
    && Lives(b.rows, b.pending, b.freed, b.next)
    && Owned(b.rows, b.pending, b.chunks) && Owned(b.rows, b.pending, b.states.Keys)
    && Held(b.fh, b.pending, b.stranded) && HandlesCounted(b.fh, b.states, b.refs, b.fhSeq)
  }

  /** Settled, folded: see Bytes.Look. */
  ghost predicate Accounted(b: Books) {
    forall k: nat {:trigger Look(Accounts, k)} :: Look(Accounts, k) ==> Settled(b)
  }

  /** A new number is in the tree. */
  lemma Given(b: Books, next: nat)
    requires Accounted(b) && next == b.next + 1 && b.next >= ROOT_INO
    ensures Accounted(b.(rows := b.rows + {b.next}, next := next))
    ensures b.next !in b.chunks && b.next !in b.states
  {
    assert Look(Accounts, 0);
    assert Lives(b.rows + {b.next}, b.pending, b.freed, next) by {
      forall i
        ensures i in b.rows + {b.next} || i in b.pending || i in b.freed <==> ROOT_INO <= i < next
      {
        assert i in b.rows || i in b.pending || i in b.freed <==> ROOT_INO <= i < b.next;
      }
    }
  }

  lemma HandlesOfPlus(fh: Handles, fh': Handles, h: nat, st: FileState, i: Ino)
    requires h !in fh && fh' == fh[h := st]
    ensures h !in HandlesOf(fh, i)
    ensures HandlesOf(fh', i) == if i == st.ino then HandlesOf(fh, i) + {h} else HandlesOf(fh, i)
  {
  }

  lemma HandlesPlus(fh: Handles, h: nat, st: FileState, i: Ino)
    requires h !in fh
    ensures |HandlesOf(fh[h := st], i)| == |HandlesOf(fh, i)| + if i == st.ino then 1 else 0
    ensures IsOpen(fh, i) ==> IsOpen(fh[h := st], i)
  {
    HandlesOfPlus(fh, fh[h := st], h, st, i);
    OpenPlus(fh, fh[h := st], h, st, i);
  }

  lemma OpenPlus(fh: Handles, fh': Handles, h: nat, st: FileState, i: Ino)
    requires h !in fh && fh' == fh[h := st]
    ensures IsOpen(fh, i) ==> IsOpen(fh', i)
  {
    if IsOpen(fh, i) {
      var k :| k in fh && fh[k].ino == i;
      assert k in fh' && fh'[k].ino == i;
    }
  }

  function CountOf(refs: map<Ino, nat>, i: Ino): nat {
    if i in refs then refs[i] else 0
  }

  /** Counts that differ at most for one inode. */
  lemma OneCount(refs: map<Ino, nat>, refs': map<Ino, nat>, ino: Ino, kept: bool, n: nat)
    requires refs'.Keys == if kept then refs.Keys + {ino} else refs.Keys - {ino}
    requires forall i :: i in refs' && i != ino ==> refs'[i] == refs[i]
    requires kept ==> refs'[ino] == n
    ensures refs' == if kept then refs[ino := n] else refs - {ino}
  {
  }

  ghost function HandleOpened(b: Books, st: FileState): Books {
    b.(fh := b.fh[b.fhSeq := st], fhSeq := b.fhSeq + 1,
       states := b.states[st.ino := st], refs := b.refs[st.ino := CountOf(b.refs, st.ino) + 1])
  }

  /** One more handle on an inode that has a row, counted on its state. */
  lemma HandleGiven(b: Books, st: FileState)
    requires Accounted(b) && st.ino in b.rows && (st.ino in b.states ==> b.states[st.ino] == st)
    ensures Accounted(HandleOpened(b, st))
    ensures b.fhSeq !in b.fh
  {
    assert Look(Accounts, 0);
    assert b.fhSeq !in b.fh;
    assert st.ino !in b.states ==> HandlesOf(b.fh, st.ino) == {};
    forall i
      ensures |HandlesOf(b.fh[b.fhSeq := st], i)| == |HandlesOf(b.fh, i)| + if i == st.ino then 1 else 0
      ensures IsOpen(b.fh, i) ==> IsOpen(b.fh[b.fhSeq := st], i)
    {
      HandlesPlus(b.fh, b.fhSeq, st, i);
    }
  }

  /** An inode that lost its row is still accounted for when it is kept for its handles ... */
  lemma KeptOn(b: Books, ino: Ino)
    requires Accounted(b) && ino in b.rows && IsOpen(b.fh, ino)
    ensures Accounted(b.(rows := b.rows - {ino}, pending := b.pending + {ino}))
  {
    assert Look(Accounts, 0);
    assert Lives(b.rows - {ino}, b.pending + {ino}, b.freed, b.next) by {
      forall i
        ensures i in b.rows - {ino} || i in b.pending + {ino} || i in b.freed <==> ROOT_INO <= i < b.next
      {
        assert i in b.rows || i in b.pending || i in b.freed <==> ROOT_INO <= i < b.next;
      }
    }
  }

  ghost function InodeFreed(b: Books, ino: Ino): Books {
    b.(rows := b.rows - {ino}, pending := b.pending - {ino}, freed := b.freed + {ino}, stranded := b.stranded - {ino},
       chunks := b.chunks - {ino}, states := b.states - {ino}, refs := b.refs - {ino})
  }

  /** ... and when it is freed. */
  lemma SetFree(b: Books, ino: Ino)
    requires Accounted(b) && (ino in b.rows || ino in b.pending) && !IsOpen(b.fh, ino)
    ensures Accounted(InodeFreed(b, ino)) && ino !in b.freed
    ensures ino in b.rows ==> b.pending - {ino} == b.pending && b.stranded - {ino} == b.stranded
    ensures ino in b.pending ==> b.rows - {ino} == b.rows
  {
    assert Look(Accounts, 0);
    var b' := InodeFreed(b, ino);
    assert Lives(b'.rows, b'.pending, b'.freed, b'.next) by {
      forall i
        ensures i in b'.rows || i in b'.pending || i in b'.freed <==> ROOT_INO <= i < b'.next
      {
        assert i in b.rows || i in b.pending || i in b.freed <==> ROOT_INO <= i < b.next;
      }
    }
  }

  function With(s: set<Ino>, ino: Ino, add: bool): set<Ino> {
    if add then s + {ino} else s
  }

  /** The inode numbers each table knows. */
  datatype Books = Books(rows: set<Ino>, pending: set<Ino>, freed: set<Ino>, stranded: set<Ino>, chunks: set<Ino>, next: nat,
                         fh: Handles, states: map<Ino, FileState>, refs: map<Ino, nat>, fhSeq: nat)

  lemma OpenMeans(fh: Handles, i: Ino)
    ensures IsOpen(fh, i) <==> HandlesOf(fh, i) != {}
  {
    if IsOpen(fh, i) {
      var k :| k in fh && fh[k].ino == i;
      assert k in HandlesOf(fh, i);
    }
    if k :| k in HandlesOf(fh, i) {
      assert k in fh && fh[k].ino == i;
    }
  }

  lemma HandlesMinus(fh: Handles, h: nat, i: Ino)
    requires h in fh
    ensures |HandlesOf(fh - {h}, i)| == |HandlesOf(fh, i)| - if i == fh[h].ino then 1 else 0
    ensures IsOpen(fh - {h}, i) <==> HandlesOf(fh - {h}, i) != {}
    ensures i != fh[h].ino ==> (IsOpen(fh, i) <==> IsOpen(fh - {h}, i))
  {
    OpenMeans(fh, i);
    OpenMeans(fh - {h}, i);
    if i == fh[h].ino {
      assert HandlesOf(fh, i) == HandlesOf(fh - {h}, i) + {h};
    } else {
      assert HandlesOf(fh, i) == HandlesOf(fh - {h}, i);
    }
  }

  lemma HandleState(b: Books, h: nat)
    requires Accounted(b) && h in b.fh
    ensures b.fh[h].ino !in b.stranded
    ensures var ino := b.fh[h].ino;
            ino in b.states && b.states[ino] == b.fh[h] && ino in b.refs && b.refs[ino] >= 1 && (ino in b.rows || ino in b.pending)
  {
    assert Look(Accounts, 0);
    assert h in HandlesOf(b.fh, b.fh[h].ino);
  }

  function LessOne(refs: map<Ino, nat>, i: Ino): map<Ino, nat> {
    if i in refs && refs[i] > 0 then refs[i := refs[i] - 1] else refs
  }

  /** Stranded inodes once a handle is closed, counting an unlinked one left without handles until it is freed. */
  ghost function LeftOver(b: Books, h: nat): set<Ino>
    requires h in b.fh
  {
    With(b.stranded, b.fh[h].ino, b.fh[h].ino in b.pending && !IsOpen(b.fh - {h}, b.fh[h].ino))
  }

  /** A handle closed, its state kept or dropped; an unlinked inode without handles waits to be freed. */
  ghost function HandleClosed(b: Books, h: nat, kept: bool, chunks: set<Ino>): Books
    requires h in b.fh
  {
    var fh, ino := b.fh - {h}, b.fh[h].ino;
    b.(fh := fh, chunks := chunks, stranded := LeftOver(b, h),
       states := if kept then b.states else b.states - {ino},
       refs := if kept then LessOne(b.refs, ino) else b.refs - {ino})
  }

  lemma HandleTaken(b: Books, h: nat, kept: bool, chunks: set<Ino>)
    requires Accounted(b) && h in b.fh && (kept || CountOf(b.refs, b.fh[h].ino) == 1)
    requires chunks <= b.chunks + {b.fh[h].ino}
    ensures Accounted(HandleClosed(b, h, kept, chunks))
    ensures !kept ==> !IsOpen(b.fh - {h}, b.fh[h].ino)
  {
    HandleState(b, h);
    assert Look(Accounts, 0);
    var b', ino := HandleClosed(b, h, kept, chunks), b.fh[h].ino;
    forall i
      ensures |HandlesOf(b'.fh, i)| == |HandlesOf(b.fh, i)| - if i == ino then 1 else 0
      ensures IsOpen(b'.fh, i) <==> HandlesOf(b'.fh, i) != {}
      ensures i != ino ==> (IsOpen(b.fh, i) <==> IsOpen(b'.fh, i))
    {
      HandlesMinus(b.fh, h, i);
    }
    assert IsOpen(b.fh, ino);
    assert Held(b'.fh, b'.pending, b'.stranded);
    assert HandlesCounted(b'.fh, b'.states, b'.refs, b'.fhSeq);
  }

  /** An idle state is flushed and dropped, or kept after a failure. */
  lemma StateReaped(b: Books, ino: Ino, dropped: bool, chunks: set<Ino>)
    requires Accounted(b) && ino in b.states && CountOf(b.refs, ino) == 0 && chunks <= b.chunks + {ino}
    ensures Accounted(b.(chunks := chunks, states := if dropped then b.states - {ino} else b.states,
                         refs := if dropped then b.refs - {ino} else b.refs))
  {
    assert Look(Accounts, 0);
    OpenMeans(b.fh, ino);
  }

  /** An inode's state without handles came or went; one with handles stays. */
  lemma StateTouched(b: Books, ino: Ino, states: map<Ino, FileState>, refs: map<Ino, nat>, chunks: set<Ino>)
    requires Accounted(b) && (ino in b.rows || ino in b.pending) && chunks <= b.chunks + {ino}
    requires if ino in states then states == b.states[ino := states[ino]] && (ino in b.states ==> states[ino] == b.states[ino])
             else states == b.states - {ino} && CountOf(b.refs, ino) == 0
    requires refs == if ino in states then b.refs[ino := CountOf(b.refs, ino)] else b.refs - {ino}
    ensures Accounted(b.(chunks := chunks, states := states, refs := refs))
  {
    assert Look(Accounts, 0);
    OpenMeans(b.fh, ino);
    assert ino !in b.states ==> HandlesOf(b.fh, ino) == {};
    assert HandlesCounted(b.fh, states, refs, b.fhSeq);
  }

  /** What setting a file's size does to it. */
  ghost predicate SizeSet(delayed: bool, size: nat, a: Obs, b: Obs, r: Result<nat>, t: seq<Obs>, acts: seq<Act>) {
    && (if size == |a.stored| then r.Ok? && b == a
        else r.Ok? || r == Err(EIO))
    && (size != |a.stored| ==> TruncateTrace(delayed, size, r.Ok?, t, acts) && t[0] == a && t[4] == b)
    && (r.Ok? ==> r.value == |b.view|)
    && (b.held || size == |a.stored| || (r.Ok? && a.faithful && a.tight && Seamless(|a.view|, |a.stored|, size)) ==>
        (b.view == Resize(a.view, size) <==> size != |a.stored| || size == |a.view|))
  }

  lemma SizeKept(delayed: bool, size: nat, a: Obs, r: Result<nat>, t: seq<Obs>, acts: seq<Act>)
    requires size == |a.stored| && r == Ok(|a.view|)
    ensures SizeSet(delayed, size, a, a, r, t, acts)
  {
    assert size == |a.view| ==> Resize(a.view, size) == a.view;
  }

  lemma SizeCut(delayed: bool, size: nat, a: Obs, b: Obs, r: Result<nat>, t: seq<Obs>, acts: seq<Act>)
    requires size != |a.stored| && TruncateTrace(delayed, size, r.Ok?, t, acts) && t[0] == a && t[4] == b
    requires r == Ok(|b.view|) || r == Err(EIO)
    ensures SizeSet(delayed, size, a, b, r, t, acts)
  {
    TruncatedView(delayed, size, r.Ok?, t, acts);
  }

  class FsCore {
    const tree: Tree
    const wb: WritebackManager
    var fh: Handles
    var fhSeq: nat
    var pending: set<Ino>
    ghost var freed: set<Ino>     // inodes whose blobs were released
    ghost var stranded: set<Ino>  // unlinked inodes whose last close failed to flush

    /** Mounts an index, with whatever it holds; numbers without a row count as freed. */
    constructor (tree: Tree, wb: WritebackManager)
      requires tree.Valid() && wb.Valid() && wb.states == map[]
      requires wb.store.meta.chunks.Keys <= tree.inodes.Keys == wb.store.meta.sizes.Keys
      ensures this.tree == tree && this.wb == wb && fh == map[] && pending == stranded == {}
      ensures Valid()
    {
      this.tree, this.wb := tree, wb;
      fh, fhSeq, pending := map[], 1, {};
      freed := set i | ROOT_INO <= i < tree.next && i !in tree.inodes;
      stranded := {};
      new;
      assert Settled(BooksFor(tree.inodes.Keys));
    }

    ghost function BooksFor(rows: set<Ino>): Books
      reads this, tree, wb, wb.states.Values, wb.store.meta
    {
      Books(rows, pending, freed, stranded, wb.store.meta.chunks.Keys, tree.next, fh, wb.states, Refs(wb.states), fhSeq)
    }

    ghost predicate Balanced(rows: set<Ino>)
      reads this, tree, wb, wb.states.Values, wb.store.meta, wb.store.backend
    {
      tree.Valid() && wb.Valid() && rows == wb.store.meta.sizes.Keys && Accounted(BooksFor(rows))
    }

    ghost predicate ValidFor(rows: set<Ino>)
      reads this, tree, wb, wb.states.Values, wb.store.meta, wb.store.backend
    {
      Balanced(rows) && (wb.delayed ==> stranded == {})
    }

    ghost predicate Valid()
      reads this, tree, wb, wb.states.Values, wb.store.meta, wb.store.backend
    {
      ValidFor(tree.inodes.Keys)
    }

    /** A new inode's row. */
    method InsertRow(ino: Ino)
      requires wb.Valid() && wb.store.Rows(ino) == []
      modifies wb.store.meta`sizes
      ensures wb.Valid() && wb.store.meta.sizes == old(wb.store.meta.sizes)[ino := 0]
      ensures forall j :: wb.Seen(j) == old(wb.Seen(j))
    {
      wb.store.meta.InsertRow(ino);
      wb.store.RowsChanged(ino);
      wb.SameStates();
    }

    // ----- names ---------------------------------------------------------------------------

    /** mkdir, mknod, symlink. */
    method MakeNode(parent: Ino, name: string, kind: Kind) returns (r: Result<Ino>)
      requires Valid() && LiveDir(tree.inodes, tree.dirents, parent)
      modifies tree, wb.store.meta`sizes
      ensures Valid()
      ensures r.Err? <==> Entry(parent, name) in old(tree.dirents)
      ensures r.Err? ==> r.errno == EEXIST && unchanged(tree)
      ensures r.Ok? ==>
                && r.value == old(tree.next) && tree.dirents == old(tree.dirents)[Entry(parent, name) := r.value]
                && tree.inodes.Keys == old(tree.inodes).Keys + {r.value} && tree.inodes[r.value].kind == kind
                && wb.Seen(r.value) == Idle([]) && wb.store.Rows(r.value) == []
      ensures forall j :: wb.Seen(j) == old(wb.Seen(j))
    {
      if Entry(parent, name) in tree.dirents {
        return Err(EEXIST);
      }
      ghost var b := BooksFor(tree.inodes.Keys);
      var ino := tree.Create(parent, name, kind);
      Given(b, tree.next);
      assert BooksFor(tree.inodes.Keys) == b.(rows := b.rows + {ino}, next := tree.next);
      InsertRow(ino);
      r := Ok(ino);
    }

    /** Another name for a file. */
    method Link(ino: Ino, parent: Ino, name: string) returns (r: Result<Ino>)
      requires Valid() && LiveDir(tree.inodes, tree.dirents, parent)
      modifies tree`inodes, tree`dirents
      ensures Valid()
      ensures r == if ino !in old(tree.inodes) then Err(ENOENT)
                   else if old(tree.inodes)[ino].kind.Dir? then Err(EPERM)
                   else if Entry(parent, name) in old(tree.dirents) then Err(EEXIST)
                   else Ok(ino)
      ensures r.Err? ==> unchanged(tree)
      ensures r.Ok? ==> tree.dirents == old(tree.dirents)[Entry(parent, name) := ino] && tree.inodes == Bump(old(tree.inodes), ino, 1)
    {
      if ino !in tree.inodes {
        return Err(ENOENT);
      }
      if tree.inodes[ino].kind.Dir? {
        return Err(EPERM);
      }
      if Entry(parent, name) in tree.dirents {
        return Err(EEXIST);
      }
      tree.Link(parent, name, ino);
      r := Ok(ino);
    }

    /** Removes the name of an empty directory; its inode row stays behind. */
    method Rmdir(parent: Ino, name: string) returns (r: Result<Ino>)
      requires Valid()
      modifies tree`inodes, tree`dirents
      ensures Valid()
      ensures var e, d, n := Entry(parent, name), old(tree.dirents), old(tree.inodes);
              r == if e !in d then Err(ENOENT)
                   else if d[e] in n && !n[d[e]].kind.Dir? then Err(ENOTDIR)
                   else if !Childless(d, d[e]) then Err(ENOTEMPTY)
                   else Ok(d[e])
      ensures r.Err? ==> unchanged(tree)
      ensures r.Ok? ==> tree.dirents == old(tree.dirents) - {Entry(parent, name)} && tree.inodes.Keys == old(tree.inodes).Keys
    {
      var e := Entry(parent, name);
      if e !in tree.dirents {
        return Err(ENOENT);
      }
      tree.NameLeads(e);
      var ino := tree.dirents[e];
      if !tree.inodes[ino].kind.Dir? {
        return Err(ENOTDIR);
      }
      if !Childless(tree.dirents, ino) {
        return Err(ENOTEMPTY);
      }
      var gone := tree.UnlinkDirent(parent, name);
      r := Ok(ino);
    }

    // ----- freeing -------------------------------------------------------------------------

    /** Forgets what is pending for an inode and releases its blobs. */
    method Free(ino: Ino)
      requires wb.Valid() && ino !in wb.store.meta.sizes && ino !in freed
      modifies this`freed, wb`states, if ino in wb.states then {wb.states[ino]} else {}
      modifies wb.store.meta`chunks, wb.store.meta`blobs, wb.store.backend`live
      ensures wb.Valid() && freed == old(freed) + {ino} && unchanged(tree) && unchanged(this`fh)
      ensures wb.states == old(wb.states) - {ino} && Refs(wb.states) == old(Refs(wb.states)) - {ino}
      ensures wb.store.meta.chunks == old(wb.store.meta.chunks) - {ino} && wb.Seen(ino) == Idle([])
      ensures forall j :: j != ino ==> wb.Seen(j) == old(wb.Seen(j))
    {
      Forget(ino);
      ReleaseBlobs(ino);
      freed := freed + {ino};
    }

    method ReleaseBlobs(ino: Ino)
      requires wb.Valid() && ino !in wb.store.meta.sizes && ino !in wb.states
      modifies wb.store.meta`chunks, wb.store.meta`blobs, wb.store.backend`live
      ensures wb.Valid() && wb.store.meta.chunks == old(wb.store.meta.chunks) - {ino} && wb.Seen(ino) == Idle([])
      ensures Refs(wb.states) == old(Refs(wb.states))
      ensures forall j :: j != ino ==> wb.Seen(j) == old(wb.Seen(j))
    {
      wb.store.FreeFile(ino);
      wb.SameStates();
      assert Content([]) == [];
    }

    method Forget(ino: Ino)
      requires wb.Valid()
      modifies wb`states, if ino in wb.states then {wb.states[ino]} else {}
      ensures wb.Valid()
      ensures wb.states == old(wb.states) - {ino} && Refs(wb.states) == old(Refs(wb.states)) - {ino}
      ensures forall j :: j != ino ==> wb.Seen(j) == old(wb.Seen(j))
    {
      wb.Discard(ino);
      RefsMoved(ino);
    }

    /** Deletes an inode's row; whatever it contains is still there. */
    method DeleteRow(ino: Ino)
      requires wb.Valid()
      modifies wb.store.meta`sizes
      ensures wb.Valid() && wb.store.meta.sizes == old(wb.store.meta.sizes) - {ino}
      ensures forall j :: wb.Seen(j) == old(wb.Seen(j))
    {
      wb.store.meta.DeleteRow(ino);
      wb.store.RowsChanged(ino);
      wb.SameStates();
    }

    /** An inode lost its last name: it is kept for its open handles, or freed right away. */
    method Orphan(ino: Ino)
      requires ValidFor(tree.inodes.Keys + {ino}) && ino !in tree.inodes
      modifies this`pending, this`freed, wb`states, if ino in wb.states then {wb.states[ino]} else {}
      modifies wb.store.meta, wb.store.backend`live
      ensures Valid() && unchanged(tree) && fh == old(fh)
      ensures pending == With(old(pending), ino, IsOpen(fh, ino))
      ensures freed == With(old(freed), ino, !IsOpen(fh, ino))
      ensures forall j :: j !in freed || j in old(freed) ==> wb.Seen(j) == old(wb.Seen(j))
      ensures forall j :: j in freed && j !in old(freed) ==> wb.Seen(j) == Idle([])
    {
      ghost var b := BooksFor(tree.inodes.Keys + {ino});
      DeleteRow(ino);
      assert wb.store.meta.sizes.Keys == tree.inodes.Keys == b.rows - {ino};
      assert BooksFor(tree.inodes.Keys) == b.(rows := b.rows - {ino});
      if IsOpen(fh, ino) {
        KeepOpen(b, ino);
      } else {
        SetFree(b, ino);
        FreeNow(b, ino);
      }
    }

    method KeepOpen(ghost b: Books, ino: Ino)
      requires tree.Valid() && wb.Valid() && tree.inodes.Keys == wb.store.meta.sizes.Keys && (wb.delayed ==> stranded == {})
      requires Accounted(b) && ino in b.rows && BooksFor(tree.inodes.Keys) == b.(rows := b.rows - {ino}) && IsOpen(fh, ino)
      modifies this`pending
      ensures Valid() && pending == old(pending) + {ino}
      ensures forall j :: wb.Seen(j) == old(wb.Seen(j))
    {
      KeptOn(b, ino);
      pending := pending + {ino};
      assert BooksFor(tree.inodes.Keys) == b.(rows := b.rows - {ino}, pending := b.pending + {ino});
    }

    /** Frees an inode that the tables of names and handles no longer know. */
    method FreeNow(ghost b: Books, ino: Ino)
      requires tree.Valid() && wb.Valid() && tree.inodes.Keys == wb.store.meta.sizes.Keys
      requires Accounted(b) && (ino in b.rows || ino in b.pending) && !IsOpen(fh, ino) && ino !in tree.inodes
      requires BooksFor(tree.inodes.Keys) ==
               b.(rows := b.rows - {ino}, pending := b.pending - {ino}, stranded := b.stranded - {ino})
      modifies this`freed, wb`states, if ino in wb.states then {wb.states[ino]} else {}
      modifies wb.store.meta`chunks, wb.store.meta`blobs, wb.store.backend`live
      ensures Balanced(tree.inodes.Keys) && unchanged(tree) && unchanged(this`fh) && unchanged(this`pending) && unchanged(this`stranded)
      ensures freed == old(freed) + {ino} && ino !in old(freed) && wb.Seen(ino) == Idle([])
      ensures forall j :: j != ino ==> wb.Seen(j) == old(wb.Seen(j))
    {
      SetFree(b, ino);
      Free(ino);
      assert BooksFor(tree.inodes.Keys) == InodeFreed(b, ino);
    }

    /** Takes a file's name out of the tree; the row of a file that has no other is still to be deleted. */
    method RemoveEntry(parent: Ino, name: string) returns (gone: bool)
      requires Valid() && Entry(parent, name) in tree.dirents && Childless(tree.dirents, tree.dirents[Entry(parent, name)])
      modifies tree`inodes, tree`dirents
      ensures ValidFor(old(tree.inodes.Keys)) && tree.dirents == old(tree.dirents) - {Entry(parent, name)}
      ensures var ino := old(tree.dirents)[Entry(parent, name)];
              (gone <==> ino !in tree.inodes) && old(tree.inodes.Keys) == if gone then tree.inodes.Keys + {ino} else tree.inodes.Keys
      ensures forall j :: wb.Seen(j) == old(wb.Seen(j))
    {
      ghost var b := BooksFor(tree.inodes.Keys);
      var found := tree.UnlinkDirent(parent, name);
      assert BooksFor(b.rows) == b;
      gone := found.value.1 <= 0;
    }

    method UnlinkFile(parent: Ino, name: string)
      requires Valid() && Entry(parent, name) in tree.dirents && Childless(tree.dirents, tree.dirents[Entry(parent, name)])
      modifies this`pending, this`freed, tree`inodes, tree`dirents, wb`states, wb.states.Values, wb.store.meta, wb.store.backend`live
      ensures Valid() && fh == old(fh) && tree.dirents == old(tree.dirents) - {Entry(parent, name)}
      ensures var ino := old(tree.dirents)[Entry(parent, name)];
              && pending == With(old(pending), ino, ino !in tree.inodes && IsOpen(fh, ino))
              && freed == With(old(freed), ino, ino !in tree.inodes && !IsOpen(fh, ino))
      ensures forall j :: j !in freed || j in old(freed) ==> wb.Seen(j) == old(wb.Seen(j))
      ensures forall j :: j in freed && j !in old(freed) ==> wb.Seen(j) == Idle([])
    {
      var ino := tree.dirents[Entry(parent, name)];
      var gone := RemoveEntry(parent, name);
      if gone {
        Orphan(ino);
      }
    }

    /** Removes a name of a file. The last one frees the file, unless it is open: then its contents stay readable. */
    method Unlink(parent: Ino, name: string) returns (r: Result<Ino>)
      requires Valid()
      modifies this`pending, this`freed, tree`inodes, tree`dirents, wb`states, wb.states.Values, wb.store.meta, wb.store.backend`live
      ensures Valid()
      ensures var e, d, n := Entry(parent, name), old(tree.dirents), old(tree.inodes);
              r == if e !in d then Err(ENOENT) else if d[e] in n && n[d[e]].kind.Dir? then Err(EISDIR) else Ok(d[e])
      ensures r.Err? ==> unchanged(tree) && unchanged(this)
      ensures r.Ok? ==> tree.dirents == old(tree.dirents) - {Entry(parent, name)}
      ensures r.Ok? ==> pending == With(old(pending), r.value, r.value !in tree.inodes && IsOpen(fh, r.value))
      ensures r.Ok? ==> freed == With(old(freed), r.value, r.value !in tree.inodes && !IsOpen(fh, r.value))
      ensures forall j :: j !in freed || j in old(freed) ==> wb.Seen(j) == old(wb.Seen(j))
      ensures forall j :: j in freed && j !in old(freed) ==> wb.Seen(j) == Idle([])
    {
      var e := Entry(parent, name);
      if e !in tree.dirents {
        return Err(ENOENT);
      }
      tree.NameLeads(e);
      var ino := tree.dirents[e];
      if tree.inodes[ino].kind.Dir? {
        return Err(EISDIR);
      }
      UnlinkFile(parent, name);
      r := Ok(ino);
    }

    /** Moves a name; a file that loses its last name to it is treated as unlinked. */
    method Rename(op: Ino, oname: string, np: Ino, nname: string) returns (r: Result<Option<Ino>>)
      requires Valid()
      requires var e := Entry(op, oname);
               e in tree.dirents ==> Permitted(tree.inodes, tree.dirents, e, Entry(np, nname))
      modifies this`pending, this`freed, tree`inodes, tree`dirents, wb`states, wb.states.Values, wb.store.meta, wb.store.backend`live
      ensures Valid()
      ensures var e1, e2, d, n := Entry(op, oname), Entry(np, nname), old(tree.dirents), old(tree.inodes);
              if e1 !in d then r == Err(ENOENT)
              else if e2 in d && d[e2] in n && n[d[e2]].kind.Dir? && !Childless(d, d[e2]) then r == Err(ENOTEMPTY)
              else
                && tree.dirents == Moved(d, e1, e2)
                && r == Ok(if e2 in d && d[e2] !in tree.inodes then Some(d[e2]) else None)
      ensures r.Err? ==> unchanged(tree) && unchanged(this)
      ensures r.Ok? && r.value == None ==> pending == old(pending) && freed == old(freed)
      ensures r.Ok? && r.value.Some? ==> pending == With(old(pending), r.value.value, IsOpen(fh, r.value.value))
      ensures r.Ok? && r.value.Some? ==> freed == With(old(freed), r.value.value, !IsOpen(fh, r.value.value))
      ensures forall j :: j !in freed || j in old(freed) ==> wb.Seen(j) == old(wb.Seen(j))
      ensures forall j :: j in freed && j !in old(freed) ==> wb.Seen(j) == Idle([])
    {
      var e1, e2 := Entry(op, oname), Entry(np, nname);
      if e1 !in tree.dirents {
        return Err(ENOENT);
      }
      if e2 in tree.dirents {
        tree.NameLeads(e2);
        var dst := tree.dirents[e2];
        if tree.inodes[dst].kind.Dir? && !Childless(tree.dirents, dst) {
          return Err(ENOTEMPTY);
        }
      }
      var replaced := RenameEntry(op, oname, np, nname);
      r := Ok(replaced);
    }

    /** Moves the entry in the tree; the row of a replaced inode without names is still to be deleted. */
    method MoveEntry(op: Ino, oname: string, np: Ino, nname: string) returns (replaced: Option<Ino>)
      requires Valid() && Renamable(tree.inodes, tree.dirents, Entry(op, oname), Entry(np, nname))
      modifies tree`inodes, tree`dirents
      ensures ValidFor(old(tree.inodes.Keys)) && tree.dirents == Moved(old(tree.dirents), Entry(op, oname), Entry(np, nname))
      ensures var e, d := Entry(np, nname), old(tree.dirents);
              replaced == if e in d && d[e] !in tree.inodes then Some(d[e]) else None
      ensures forall j :: wb.Seen(j) == old(wb.Seen(j))
      ensures old(tree.inodes.Keys) == if replaced.Some? then tree.inodes.Keys + {replaced.value} else tree.inodes.Keys
    {
      ghost var b := BooksFor(tree.inodes.Keys);
      RenamableIsHarmless(tree.inodes, tree.dirents, Entry(op, oname), Entry(np, nname));
      var _, found := tree.Rename(op, oname, np, nname);
      assert BooksFor(b.rows) == b;
      replaced := found;
    }

    /** The checks done, moves the name. */
    method RenameEntry(op: Ino, oname: string, np: Ino, nname: string) returns (replaced: Option<Ino>)
      requires Valid() && Renamable(tree.inodes, tree.dirents, Entry(op, oname), Entry(np, nname))
      modifies this`pending, this`freed, tree`inodes, tree`dirents, wb`states, wb.states.Values, wb.store.meta, wb.store.backend`live
      ensures Valid() && tree.dirents == Moved(old(tree.dirents), Entry(op, oname), Entry(np, nname))
      ensures var e, d := Entry(np, nname), old(tree.dirents);
              replaced == if e in d && d[e] !in tree.inodes then Some(d[e]) else None
      ensures replaced == None ==> pending == old(pending) && freed == old(freed)
      ensures replaced.Some? ==> pending == With(old(pending), replaced.value, IsOpen(fh, replaced.value))
      ensures replaced.Some? ==> freed == With(old(freed), replaced.value, !IsOpen(fh, replaced.value))
      ensures forall j :: j !in freed || j in old(freed) ==> wb.Seen(j) == old(wb.Seen(j))
      ensures forall j :: j in freed && j !in old(freed) ==> wb.Seen(j) == Idle([])
    {
      replaced := MoveEntry(op, oname, np, nname);
      if replaced.Some? {
        Orphan(replaced.value);
      }
    }

    // ----- handles -------------------------------------------------------------------------

    /** An operation on one inode changes only its own count, by what is seen of it. */
    twostate lemma RefsMoved(ino: Ino)
      requires wb.store.chunkSize > 0
      requires wb.states == if ino in wb.states then old(wb.states)[ino := wb.states[ino]] else old(wb.states) - {ino}
      requires forall j :: j != ino ==> wb.Seen(j) == old(wb.Seen(j))
      ensures CountOf(old(Refs(wb.states)), ino) == old(wb.Seen(ino)).refs
      ensures Refs(wb.states) == if ino in wb.states then old(Refs(wb.states))[ino := wb.Seen(ino).refs] else old(Refs(wb.states)) - {ino}
    {
      forall i | i in wb.states && i != ino
        ensures Refs(wb.states)[i] == old(Refs(wb.states))[i]
      {
        assert wb.Seen(i).refs == wb.states[i].refcount;
      }
      OneCount(old(Refs(wb.states)), Refs(wb.states), ino, ino in wb.states, wb.Seen(ino).refs);
    }

    method OpenState(ino: Ino, forWrite: bool) returns (st: FileState)
      requires wb.Valid() && (forWrite ==> wb.Openable(ino))
      modifies wb`states, if ino in wb.states then {wb.states[ino]} else {}
      ensures wb.Valid() && st.ino == ino
      ensures wb.states == old(wb.states)[ino := st] && if ino in old(wb.states) then st == old(wb.states)[ino] else fresh(st)
      ensures Refs(wb.states) == old(Refs(wb.states))[ino := CountOf(old(Refs(wb.states)), ino) + 1]
      ensures Does(wb.delayed, Act.Open(forWrite), old(wb.Seen(ino)), wb.Seen(ino))
      ensures forall j :: j != ino ==> wb.Seen(j) == old(wb.Seen(j))
    {
      ghost var a := wb.Seen(ino);
      st := wb.Open(ino, forWrite);
      OpenHolds(wb.delayed, forWrite, a, wb.Seen(ino));
      RefsMoved(ino);
    }

    /** A new handle on an inode that has a row. */
    method NewHandle(ino: Ino, forWrite: bool) returns (h: nat)
      requires Valid() && ino in tree.inodes && (forWrite ==> wb.Openable(ino))
      modifies this`fh, this`fhSeq, wb`states, if ino in wb.states then {wb.states[ino]} else {}
      ensures Valid() && h !in old(fh) && h in fh && fh == old(fh)[h := fh[h]]
      ensures fh[h].ino == ino && if ino in old(wb.states) then fh[h] == old(wb.states)[ino] else fresh(fh[h])
      ensures wb.states == old(wb.states)[ino := fh[h]]
      ensures Does(wb.delayed, Act.Open(forWrite), old(wb.Seen(ino)), wb.Seen(ino))
      ensures forall j :: j != ino ==> wb.Seen(j) == old(wb.Seen(j))
    {
      ghost var b := BooksFor(tree.inodes.Keys);
      var st := OpenState(ino, forWrite);
      h := RecordHandle(b, st);
    }

    /** Enters a handle for a state that has counted it already. */
    method RecordHandle(ghost b: Books, st: FileState) returns (h: nat)
      requires tree.Valid() && wb.Valid() && tree.inodes.Keys == wb.store.meta.sizes.Keys && (wb.delayed ==> stranded == {})
      requires Accounted(b) && st.ino in b.rows && (st.ino in b.states ==> b.states[st.ino] == st)
      requires BooksFor(tree.inodes.Keys) == HandleOpened(b, st).(fh := b.fh, fhSeq := b.fhSeq)
      modifies this`fh, this`fhSeq
      ensures Valid() && h !in old(fh) && fh == old(fh)[h := st]
      ensures forall j :: wb.Seen(j) == old(wb.Seen(j))
    {
      HandleGiven(b, st);
      h := fhSeq;
      fh := fh[h := st];
      fhSeq := fhSeq + 1;
      assert BooksFor(tree.inodes.Keys) == HandleOpened(b, st);
    }

    // ----- sizes ---------------------------------------------------------------------------

    method TruncateState(ino: Ino, length: nat) returns (ok: bool, ghost t: seq<Obs>, ghost acts: seq<Act>)
      requires wb.Valid() && wb.Openable(ino)
      modifies wb`states, if ino in wb.states then {wb.states[ino]} else {}, wb.store.meta, wb.store.backend
      ensures wb.Valid() && wb.OnlyRowsOf(ino)
      ensures TruncateTrace(wb.delayed, length, ok, t, acts) && t[0] == old(wb.Seen(ino)) && t[4] == wb.Seen(ino)
      ensures if ino in wb.states
              then wb.states == old(wb.states)[ino := wb.states[ino]]
                   && if ino in old(wb.states) then wb.states[ino] == old(wb.states)[ino] else fresh(wb.states[ino])
              else wb.states == old(wb.states) - {ino} && CountOf(old(Refs(wb.states)), ino) == 0
      ensures Refs(wb.states) ==
              if ino in wb.states then old(Refs(wb.states))[ino := CountOf(old(Refs(wb.states)), ino)] else old(Refs(wb.states)) - {ino}
      ensures forall j :: j != ino ==> wb.Seen(j) == old(wb.Seen(j))
    {
      ok, t, acts := wb.TruncatePath(ino, length);
      TruncatedView(wb.delayed, length, ok, t, acts);
      RefsMoved(ino);
    }

    /** Truncates an inode that has a row, whether or not it is open. */
    method TruncateRow(ino: Ino, length: nat) returns (ok: bool, ghost t: seq<Obs>, ghost acts: seq<Act>)
      requires Valid() && ino in tree.inodes && wb.Openable(ino)
      modifies wb`states, if ino in wb.states then {wb.states[ino]} else {}, wb.store.meta, wb.store.backend
      ensures Valid() && unchanged(tree) && unchanged(this)
      ensures TruncateTrace(wb.delayed, length, ok, t, acts) && t[0] == old(wb.Seen(ino)) && t[4] == wb.Seen(ino)
      ensures ino in wb.states ==> if ino in old(wb.states) then wb.states[ino] == old(wb.states)[ino] else fresh(wb.states[ino])
      ensures forall j :: j != ino ==> wb.Seen(j) == old(wb.Seen(j))
    {
      ghost var b := BooksFor(tree.inodes.Keys);
      ok, t, acts := TruncateState(ino, length);
      StateTouched(b, ino, wb.states, Refs(wb.states), wb.store.meta.chunks.Keys);
      assert BooksFor(tree.inodes.Keys) == b.(chunks := wb.store.meta.chunks.Keys, states := wb.states, refs := Refs(wb.states));
    }

    /** The size in an inode's attributes; a file's is that of what its readers see. */
    method GetSize(ino: Ino) returns (r: Result<nat>)
      requires Valid()
      ensures ino !in tree.inodes ==> r == Err(ENOENT)
      ensures ino in tree.inodes ==> r == Ok(if tree.inodes[ino].kind.File? then |wb.Seen(ino).view| else |wb.Seen(ino).stored|)
      ensures Valid() && forall j :: wb.Seen(j) == old(wb.Seen(j))
    {
      if ino !in tree.inodes {
        return Err(ENOENT);
      }
      wb.store.Offers(ino);
      var live := None;
      if tree.inodes[ino].kind.File? {
        live := wb.LiveSize(ino);
      }
      r := Ok(if live.Some? then live.value else wb.store.meta.sizes[ino]);
    }

    /**
      Sets a file's size, unless it is the stored size already; the attribute that comes back is the new size. The file is
      then the resized one if and only if the size asked for is not the stored one or is the file's own: always where the
      inode's state survives, and where it does not, as for a closed file, when the flush got through and nothing that was
      cut off before can come back. Without a state nothing was.
     */
    method SetSize(ino: Ino, size: nat) returns (r: Result<nat>, ghost t: seq<Obs>, ghost acts: seq<Act>)
      requires Valid() && (ino in tree.inodes && !wb.Seen(ino).writing ==> !LongTail(wb.store.Rows(ino), wb.store.chunkSize))
      modifies wb`states, if ino in wb.states then {wb.states[ino]} else {}, wb.store.meta, wb.store.backend
      ensures Valid() && unchanged(tree) && unchanged(this)
      ensures ino !in tree.inodes ==> r == Err(ENOENT)
      ensures ino in tree.inodes && tree.inodes[ino].kind.File? ==>
                SizeSet(wb.delayed, size, old(wb.Seen(ino)), wb.Seen(ino), r, t, acts)
      ensures ino !in tree.inodes || tree.inodes[ino].kind.Dir? ==> wb.Seen(ino) == old(wb.Seen(ino))
      ensures forall j :: j != ino ==> wb.Seen(j) == old(wb.Seen(j))
    {
      t, acts := [], [];
      if ino !in tree.inodes {
        return Err(ENOENT), t, acts;
      }
      ghost var a := wb.Seen(ino);
      wb.store.Offers(ino);
      if tree.inodes[ino].kind.Dir? || size == wb.store.meta.sizes[ino] {
        r := GetSize(ino);
        if tree.inodes[ino].kind.File? {
          SizeKept(wb.delayed, size, a, r, t, acts);
        }
        return r, t, acts;
      }
      var ok;
      ok, t, acts := TruncateRow(ino, size);
      r := GetSize(ino);
      if !ok {
        r := Err(EIO);
      }
      if tree.inodes[ino].kind.File? {
        SizeCut(wb.delayed, size, a, wb.Seen(ino), r, t, acts);
      }
    }

    /** Opens a file or symlink; the kernel truncates separately. A file opened for writing is in write mode. */
    method Open(ino: Ino, forWrite: bool) returns (r: Result<nat>)
      requires Valid() && (forWrite && !wb.Seen(ino).writing ==> !LongTail(wb.store.Rows(ino), wb.store.chunkSize))
      modifies this`fh, this`fhSeq, wb`states, if ino in wb.states then {wb.states[ino]} else {}
      ensures Valid()
      ensures r.Err? ==> r.errno == (if ino in tree.inodes then EISDIR else ENOENT) && fh == old(fh)
      ensures r.Err? <==> (ino in tree.inodes ==> tree.inodes[ino].kind.Dir?)
      ensures r.Ok? ==> r.value !in old(fh) && r.value in fh && fh == old(fh)[r.value := fh[r.value]] && fh[r.value].ino == ino
      ensures r.Ok? ==> if ino in old(wb.states) then fh[r.value] == old(wb.states)[ino] else fresh(fh[r.value])
      ensures Does(wb.delayed, if r.Ok? then Act.Open(forWrite) else Stay, old(wb.Seen(ino)), wb.Seen(ino))
      ensures forWrite && r.Ok? ==> wb.Seen(ino).writing
      ensures forall j :: j != ino ==> wb.Seen(j) == old(wb.Seen(j))
    {
      ghost var a := wb.Seen(ino);
      if ino !in tree.inodes {
        Stayed(wb.delayed, a);
        return Err(ENOENT);
      }
      if tree.inodes[ino].kind.Dir? {
        Stayed(wb.delayed, a);
        return Err(EISDIR);
      }
      var h := NewHandle(ino, forWrite);
      OpenHolds(wb.delayed, forWrite, a, wb.Seen(ino));
      r := Ok(h);
    }

    method CloseState(st: FileState) returns (ok: bool)
      requires wb.Valid() && st.ino in wb.states && wb.states[st.ino] == st && st.refcount > 0
      modifies wb`states, st, wb.store.meta, wb.store.backend
      ensures wb.Valid() && wb.OnlyRowsOf(st.ino)
      ensures wb.states == if Drops(wb.delayed, old(wb.Seen(st.ino))) then old(wb.states) - {st.ino} else old(wb.states)
      ensures Refs(wb.states) == if st.ino in wb.states then LessOne(old(Refs(wb.states)), st.ino) else old(Refs(wb.states)) - {st.ino}
      ensures Drops(wb.delayed, old(wb.Seen(st.ino))) ==> CountOf(old(Refs(wb.states)), st.ino) == 1
      ensures Does(wb.delayed, Act.Close(ok), old(wb.Seen(st.ino)), wb.Seen(st.ino))
      ensures forall j :: j != st.ino ==> wb.Seen(j) == old(wb.Seen(j))
    {
      ghost var a := wb.Seen(st.ino);
      ok := wb.Release(st);
      CloseHolds(wb.delayed, ok, a, wb.Seen(st.ino));
      RefsMoved(st.ino);
    }

    /** Closes the state of a handle just removed; an unlinked file left without handles counts as stranded for now. */
    method CloseHandle(ghost b: Books, ghost h: nat, st: FileState) returns (ok: bool)
      requires tree.Valid() && wb.Valid() && tree.inodes.Keys == wb.store.meta.sizes.Keys
      requires Accounted(b) && h in b.fh && b.fh[h] == st
      requires BooksFor(tree.inodes.Keys) == b.(fh := b.fh - {h}, stranded := LeftOver(b, h))
      modifies wb`states, st, wb.store.meta, wb.store.backend
      ensures Balanced(tree.inodes.Keys) && unchanged(tree) && unchanged(this)
      ensures st.ino in wb.states ==> wb.states == old(wb.states)
      ensures !ok ==> !wb.delayed && old(wb.Seen(st.ino)).dirty && !IsOpen(fh, st.ino)
      ensures Does(wb.delayed, Act.Close(ok), old(wb.Seen(st.ino)), wb.Seen(st.ino))
      ensures forall j :: j != st.ino ==> wb.Seen(j) == old(wb.Seen(j))
    {
      HandleState(b, h);
      ghost var a := wb.Seen(st.ino);
      ok := CloseState(st);
      HandleTaken(b, h, st.ino in wb.states, wb.store.meta.chunks.Keys);
      if !ok {
        CloseFails(wb.delayed, a, wb.Seen(st.ino));
      }
      assert BooksFor(tree.inodes.Keys) == HandleClosed(b, h, st.ino in wb.states, wb.store.meta.chunks.Keys);
    }

    /** Frees an unlinked inode that no handle is open on. */
    method Reclaim(ino: Ino)
      requires Balanced(tree.inodes.Keys) && ino in pending && !IsOpen(fh, ino)
      modifies this`pending, this`freed, this`stranded
      modifies wb`states, if ino in wb.states then {wb.states[ino]} else {}, wb.store.meta, wb.store.backend
      ensures Balanced(tree.inodes.Keys) && unchanged(tree) && fh == old(fh) && wb.Seen(ino) == Idle([])
      ensures pending == old(pending) - {ino} && stranded == old(stranded) - {ino}
      ensures freed == old(freed) + {ino} && ino !in old(freed)
      ensures forall j :: j != ino ==> wb.Seen(j) == old(wb.Seen(j))
    {
      ghost var b := BooksFor(tree.inodes.Keys);
      SetFree(b, ino);
      pending, stranded := pending - {ino}, stranded - {ino};
      FreeNow(b, ino);
    }

    /**
      Closes a handle; closing an unknown one does nothing. An unlinked file whose last handle this was is freed now,
      unless flushing it failed: then it stays behind, neither freed nor reachable. A close fails only when it is the
      last one, changes are pending and there is no flush delay.
     */
    method Release(h: nat) returns (ok: bool)
      requires Valid()
      modifies this`fh, this`pending, this`freed, this`stranded
      modifies wb`states, wb.states.Values, wb.store.meta, wb.store.backend
      ensures Valid() && fh == old(fh) - {h}
      ensures h !in old(fh) ==> ok && unchanged(this) && unchanged(wb) && unchanged(wb.store.meta) && unchanged(wb.store.backend)
      ensures h in old(fh) ==> Released(old(fh)[h].ino, ok)
    {
      if h !in fh {
        return true;
      }
      ok := ReleaseKnown(h);
    }

    method ReleaseKnown(h: nat) returns (ok: bool)
      requires Valid() && h in fh
      modifies this`fh, this`pending, this`freed, this`stranded
      modifies wb`states, wb.states.Values, wb.store.meta, wb.store.backend
      ensures Valid() && fh == old(fh) - {h} && Released(old(fh)[h].ino, ok)
    {
      ghost var b := BooksFor(tree.inodes.Keys);
      HandleState(b, h);
      var st := TakeHandle(h);
      var ino := st.ino;
      ok := CloseHandle(b, h, st);
      if ok {
        ReclaimLast(ino);
      }
    }

    /** Frees an unlinked inode unless a handle is open on it. */
    method ReclaimLast(ino: Ino)
      requires Balanced(tree.inodes.Keys)
      modifies this`pending, this`freed, this`stranded
      modifies wb`states, if ino in wb.states then {wb.states[ino]} else {}, wb.store.meta, wb.store.backend
      ensures Balanced(tree.inodes.Keys) && unchanged(tree) && fh == old(fh)
      ensures var last := ino in old(pending) && !IsOpen(fh, ino);
              && freed == With(old(freed), ino, last) && (last ==> ino !in old(freed))
              && pending == (if last then old(pending) - {ino} else old(pending))
              && stranded == (if last then old(stranded) - {ino} else old(stranded))
              && wb.Seen(ino) == if last then Idle([]) else old(wb.Seen(ino))
      ensures forall j :: j != ino ==> wb.Seen(j) == old(wb.Seen(j))
    {
      if ino in pending && !IsOpen(fh, ino) {
        Reclaim(ino);
      }
    }

    /** Takes a handle out of the table. */
    method TakeHandle(h: nat) returns (st: FileState)
      requires Valid() && h in fh
      modifies this`fh, this`stranded
      ensures tree.Valid() && wb.Valid() && st == old(fh)[h] && fh == old(fh) - {h}
      ensures stranded == LeftOver(old(BooksFor(tree.inodes.Keys)), h)
      ensures BooksFor(tree.inodes.Keys) == old(BooksFor(tree.inodes.Keys)).(fh := fh, stranded := stranded)
      ensures forall j :: wb.Seen(j) == old(wb.Seen(j))
    {
      ghost var b := BooksFor(tree.inodes.Keys);
      st := fh[h];
      fh := fh - {h};
      stranded := LeftOver(b, h);
    }

    /** A handle on inode `ino` was closed. */
    twostate predicate Released(ino: Ino, ok: bool)
      requires wb.store.chunkSize > 0
      reads this, wb, wb.states.Values, wb.store.meta
    {
      var last := ino in old(pending) && !IsOpen(fh, ino);
      && freed == With(old(freed), ino, last && ok) && (last && ok ==> ino !in old(freed))
      && pending == (if last && ok then old(pending) - {ino} else old(pending))
      && stranded == With(old(stranded), ino, last && !ok)
      && (if last && ok then wb.Seen(ino) == Idle([]) else Does(wb.delayed, Act.Close(ok), old(wb.Seen(ino)), wb.Seen(ino)))
      && (!ok ==> !wb.delayed && old(wb.Seen(ino)).dirty && !IsOpen(fh, ino))
      && (forall j :: j != ino ==> wb.Seen(j) == old(wb.Seen(j)))
    }

    /** Opens the named file for writing, made first if there is none. */
    method Create(parent: Ino, name: string, excl: bool) returns (r: Result<nat>)
      requires Valid() && LiveDir(tree.inodes, tree.dirents, parent)
      requires var e := Entry(parent, name);
               e in tree.dirents && !wb.Seen(tree.dirents[e]).writing ==> !LongTail(wb.store.Rows(tree.dirents[e]), wb.store.chunkSize)
      modifies this`fh, this`fhSeq, tree, wb`states, wb.states.Values, wb.store.meta`sizes
      ensures Valid()
      ensures var e := Entry(parent, name);
              if e in old(tree.dirents) && excl then r == Err(EEXIST) && unchanged(this) && unchanged(tree)
              else r.Ok? && r.value !in old(fh) && r.value in fh && fh == old(fh)[r.value := fh[r.value]]
      ensures r.Err? ==> forall j :: wb.Seen(j) == old(wb.Seen(j))
      ensures r.Ok? ==> CreatedAt(Entry(parent, name), fh[r.value].ino)
      ensures r.Ok? ==> fresh(fh[r.value]) || fh[r.value] in old(wb.states.Values)
      ensures r.Ok? ==> wb.states == old(wb.states)[fh[r.value].ino := fh[r.value]]
    {
      var e := Entry(parent, name);
      var ino;
      if e in tree.dirents {
        if excl {
          return Err(EEXIST);
        }
        tree.NameLeads(e);
        ino := tree.dirents[e];
      } else {
        var made := MakeNode(parent, name, File);
        ino := made.value;
      }
      ghost var a := wb.Seen(ino);
      var h := NewHandle(ino, true);
      OpenHolds(wb.delayed, true, a, wb.Seen(ino));
      r := Ok(h);
    }

    /** The name e leads to inode `ino`, as before or made empty, and that inode was opened for writing. */
    twostate predicate CreatedAt(e: Entry, ino: Ino)
      requires wb.store.chunkSize > 0
      reads this, tree, wb, wb.states.Values, wb.store.meta
    {
      && e in tree.dirents && tree.dirents[e] == ino
      && (if e in old(tree.dirents) then unchanged(tree)
          else
            && tree.dirents == old(tree.dirents)[e := old(tree.next)] && ino in tree.inodes && tree.inodes[ino].kind.File?
            && old(wb.Seen(ino)) == Idle([]))
      && Does(wb.delayed, Act.Open(true), old(wb.Seen(ino)), wb.Seen(ino)) && wb.Seen(ino).writing
      && (forall j :: j != ino ==> wb.Seen(j) == old(wb.Seen(j)))
    }

    /** The file's bytes in the range, linked or not; see Traces.StaysWhole for when they are all there. */
    method Read(h: nat, n: nat, offset: nat) returns (r: Result<Data>)
      requires Valid()
      modifies if h in fh then {fh[h]} else {}
      ensures Valid() && (r.Err? <==> h !in fh) && (r.Err? ==> r.errno == EBADF) && unchanged(this) && unchanged(tree) && unchanged(wb)
      ensures h in fh ==>
                var a := old(wb.Seen(fh[h].ino));
                && r.value <= Slice(a.view, offset, offset + n)
                && (a.whole ==> r.value == Slice(a.view, offset, offset + n))
                && Does(wb.delayed, Act.Read, a, wb.Seen(fh[h].ino))
      ensures forall j :: h !in fh || j != fh[h].ino ==> wb.Seen(j) == old(wb.Seen(j))
    {
      if h !in fh {
        return Err(EBADF);
      }
      ghost var b, a := BooksFor(tree.inodes.Keys), wb.Seen(fh[h].ino);
      HandleState(b, h);
      var data := wb.Read(fh[h], n, offset);
      ReadHolds(wb.delayed, a, wb.Seen(fh[h].ino));
      assert BooksFor(tree.inodes.Keys) == b;
      r := Ok(data);
    }

    /** The handle is one opened for writing; whether its inode still has a name makes no difference. */
    method Write(h: nat, data: Data, offset: nat) returns (r: Result<nat>)
      requires Valid() && (h in fh ==> wb.Seen(fh[h].ino).writing)
      modifies if h in fh then {fh[h]} else {}
      ensures Valid() && r == (if h in fh then Ok(|data|) else Err(EBADF)) && unchanged(this) && unchanged(tree) && unchanged(wb)
      ensures h in fh ==> Does(wb.delayed, Act.Write(data, offset), old(wb.Seen(fh[h].ino)), wb.Seen(fh[h].ino))
      ensures h in fh ==> wb.Seen(fh[h].ino).writing && wb.Seen(fh[h].ino).view == Overwrite(old(wb.Seen(fh[h].ino)).view, offset, data)
      ensures forall j :: h !in fh || j != fh[h].ino ==> wb.Seen(j) == old(wb.Seen(j))
    {
      if h !in fh {
        return Err(EBADF);
      }
      ghost var b, a := BooksFor(tree.inodes.Keys), wb.Seen(fh[h].ino);
      HandleState(b, h);
      wb.Write(fh[h], data, offset);
      WriteHolds(wb.delayed, data, offset, a, wb.Seen(fh[h].ino));
      assert BooksFor(tree.inodes.Keys) == b;
      r := Ok(|data|);
    }

    /** FUSE flush and fsync on an open handle: the first is lazy when a flush delay is set. */
    method Flush(h: nat, onClose: bool) returns (r: Result<()>)
      requires Valid()
      modifies if h in fh then {fh[h]} else {}, wb.store.meta, wb.store.backend
      ensures Valid() && unchanged(this) && unchanged(tree) && unchanged(wb)
      ensures h !in fh ==> r == Err(EBADF) && unchanged(wb.store.meta) && unchanged(wb.store.backend)
      ensures h in fh ==> r == Ok(()) || r == Err(EIO)
      ensures h in fh ==> Does(wb.delayed, if onClose && wb.delayed then Stay else Act.Sync(r.Ok?), old(wb.Seen(fh[h].ino)), wb.Seen(fh[h].ino))
      ensures forall j :: h !in fh || j != fh[h].ino ==> wb.Seen(j) == old(wb.Seen(j))
    {
      if h !in fh {
        return Err(EBADF);
      }
      ghost var b := BooksFor(tree.inodes.Keys);
      HandleState(b, h);
      var ok := FlushState(fh[h], onClose);
      StateTouched(b, fh[h].ino, wb.states, Refs(wb.states), wb.store.meta.chunks.Keys);
      assert BooksFor(tree.inodes.Keys) == b.(chunks := wb.store.meta.chunks.Keys, states := wb.states, refs := Refs(wb.states));
      r := if ok then Ok(()) else Err(EIO);
    }

    method FlushState(st: FileState, onClose: bool) returns (ok: bool)
      requires wb.Valid() && st.ino in wb.states && wb.states[st.ino] == st
      modifies st, wb.store.meta, wb.store.backend
      ensures wb.Valid() && wb.OnlyRowsOf(st.ino)
      ensures Refs(wb.states) == old(Refs(wb.states))[st.ino := CountOf(old(Refs(wb.states)), st.ino)]
      ensures Does(wb.delayed, if onClose && wb.delayed then Stay else Act.Sync(ok), old(wb.Seen(st.ino)), wb.Seen(st.ino))
      ensures onClose && wb.delayed ==> ok
      ensures forall j :: j != st.ino ==> wb.Seen(j) == old(wb.Seen(j))
    {
      ghost var a := wb.Seen(st.ino);
      if onClose {
        ok := wb.FlushOnClose(st);
      } else {
        ok := wb.Sync(st);
      }
      FlushHolds(wb.delayed, if onClose && wb.delayed then Stay else Act.Sync(ok), a, wb.Seen(st.ino));
      RefsMoved(st.ino);
    }

    /** The background flush of one idle state. */
    method Reap(ino: Ino) returns (ok: bool)
      requires Valid() && wb.Seen(ino).held && wb.Seen(ino).refs == 0
      modifies wb`states, if ino in wb.states then {wb.states[ino]} else {}, wb.store.meta, wb.store.backend
      ensures Valid() && Does(wb.delayed, Act.Reap(ok), old(wb.Seen(ino)), wb.Seen(ino))
      ensures forall j :: j != ino ==> wb.Seen(j) == old(wb.Seen(j))
    {
      ghost var b := BooksFor(tree.inodes.Keys);
      ok := ReapState(ino);
      StateReaped(b, ino, ok, wb.store.meta.chunks.Keys);
      assert BooksFor(tree.inodes.Keys) ==
             b.(chunks := wb.store.meta.chunks.Keys, states := if ok then b.states - {ino} else b.states,
                refs := if ok then b.refs - {ino} else b.refs);
    }

    method ReapState(ino: Ino) returns (ok: bool)
      requires wb.Valid() && wb.Seen(ino).held && wb.Seen(ino).refs == 0
      modifies wb`states, if ino in wb.states then {wb.states[ino]} else {}, wb.store.meta, wb.store.backend
      ensures wb.Valid() && wb.OnlyRowsOf(ino) && wb.states == if ok then old(wb.states) - {ino} else old(wb.states)
      ensures old(ino in wb.states && CountOf(Refs(wb.states), ino) == 0)
      ensures Refs(wb.states) == if ok then old(Refs(wb.states)) - {ino} else old(Refs(wb.states))
      ensures Does(wb.delayed, Act.Reap(ok), old(wb.Seen(ino)), wb.Seen(ino))
      ensures forall j :: j != ino ==> wb.Seen(j) == old(wb.Seen(j))
    {
      ghost var a := wb.Seen(ino);
      ok := wb.ReapState(ino);
      ReapHolds(wb.delayed, ok, a, wb.Seen(ino));
      RefsMoved(ino);
    }

    /** No blob is kept but for a file that has a name or an open handle, or whose last close failed. */
    lemma BlobsBelong(s: Sha) returns (ino: Ino)
      requires Valid() && s in wb.store.meta.blobs
      ensures (exists r :: r in wb.store.Rows(ino) && r.sha == s)
      ensures ino in tree.inodes || (ino in pending && (IsOpen(fh, ino) || ino in stranded))
      ensures ino !in freed
    {
      ino := wb.store.BlobHasRow(s);
      assert Look(Accounts, 0);
    }
  }

  /** Everything starts in order: an empty file system over an empty backend. */
  method Format(chunkSize: nat, downloadWorkers: nat, delayed: bool) returns (fs: FsCore)
    requires chunkSize > 0
    ensures fresh(fs) && fs.Valid() && fs.tree.inodes.Keys == {ROOT_INO} && fs.tree.dirents == map[]
    ensures fs.wb.delayed == delayed && forall j :: fs.wb.Seen(j) == Idle([])
  {
    var meta := new Meta();
    var backend := new MemoryBackend();
    meta.InsertRow(ROOT_INO);
    var store := new Store(meta, backend, chunkSize, downloadWorkers);
    var wb := new WritebackManager(store, delayed);
    var tree := new Tree();
    fs := new FsCore(tree, wb);
    EmptyTables(meta.chunks);
  }

  lemma WrittenAfresh(delayed: bool, data: Data, off: nat, a: Obs, b: Obs, c: Obs)
    requires Does(delayed, Act.Open(true), a, b) && a == Idle([]) && Does(delayed, Act.Write(data, off), b, c) && off == 0
    ensures c.writing && c.view == data && c.stored == [] && c.dirty && c.refs == 1 && c.faithful && !c.stale
  {
    OpenHolds(delayed, true, a, b);
    assert Look(Conduct, 0);
    assert Overwrite([], 0, data) == data;
  }

  /** Makes a file and writes to it. */
  method WriteNew(fs: FsCore, parent: Ino, name: string, data: Data) returns (h: nat)
    requires fs.Valid() && LiveDir(fs.tree.inodes, fs.tree.dirents, parent) && Entry(parent, name) !in fs.tree.dirents
    modifies fs, fs.tree, fs.wb, fs.wb.states.Values, fs.wb.store.meta
    ensures fs.Valid() && h in fs.fh
    ensures var ino := fs.fh[h].ino;
            && ino in fs.tree.inodes && fs.tree.inodes[ino].kind.File?
            && var c := fs.wb.Seen(ino);
            c.writing && c.view == data && c.stored == [] && c.dirty && c.refs == 1 && c.faithful && !c.stale
    ensures forall st :: st in fs.wb.states.Values ==> fresh(st) || st in old(fs.wb.states.Values)
  {
    var made := fs.Create(parent, name, true);
    h := made.value;
    ghost var ino := fs.fh[h].ino;
    HandleState(fs.BooksFor(fs.tree.inodes.Keys), h);
    ghost var b := fs.wb.Seen(ino);
    var written := fs.Write(h, data, 0);
    WrittenAfresh(fs.wb.delayed, data, 0, Idle([]), b, fs.wb.Seen(ino));
  }

  /** Make, write, close: with no flush delay, a close that gets through has stored what was written. */
  method SavedOnClose(fs: FsCore, parent: Ino, name: string, data: Data) returns (ghost ino: Ino, ok: bool)
    requires fs.Valid() && LiveDir(fs.tree.inodes, fs.tree.dirents, parent) && Entry(parent, name) !in fs.tree.dirents
    requires !fs.wb.delayed
    modifies fs, fs.tree, fs.wb, fs.wb.states.Values, fs.wb.store.meta, fs.wb.store.backend
    ensures fs.Valid() && fs.wb.store.Stored(ino) == if ok then data else []
  {
    var h := WriteNew(fs, parent, name, data);
    ino := fs.fh[h].ino;
    ghost var c := fs.wb.Seen(ino);
    NotPending(fs, ino);
    ok := fs.Release(h);
    ClosedSaves(c, fs.wb.Seen(ino), ok);
  }

  lemma NotPending(fs: FsCore, ino: Ino)
    requires fs.Valid() && ino in fs.tree.inodes
    ensures ino !in fs.pending
  {
    assert Look(Accounts, 0);
  }

  lemma ClosedSaves(c: Obs, d: Obs, ok: bool)
    requires Does(false, Act.Close(ok), c, d) && c.dirty && c.refs == 1 && c.faithful && !c.stale
    ensures d.stored == if ok then c.view else c.stored
  {
    assert Look(Conduct, 0);
  }

  /** A new file that is written and then cut to nothing before any flush keeps all it had: nothing is the stored size. */
  method CutIgnored(fs: FsCore, parent: Ino, name: string, data: Data) returns (ino: Ino, r: Result<nat>)
    requires fs.Valid() && LiveDir(fs.tree.inodes, fs.tree.dirents, parent) && Entry(parent, name) !in fs.tree.dirents && data != []
    modifies fs, fs.tree, fs.wb, fs.wb.states.Values, fs.wb.store.meta, fs.wb.store.backend
    ensures fs.Valid() && r == Ok(|data|) && fs.wb.Seen(ino).view == data
  {
    var h := WriteNew(fs, parent, name, data);
    ino := fs.fh[h].ino;
    ghost var t, acts;
    r, t, acts := fs.SetSize(ino, 0);
  }
}
