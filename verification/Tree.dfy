/** The inode and dirent tables of the metadata index: link counts and the directory tree. */
module Tree {
  import opened Bytes
  import opened Paths

  const ROOT_INO: Ino := 1

  datatype Kind = File | Dir | Symlink
  datatype Inode = Inode(kind: Kind, nlink: int)
  type Inodes = map<Ino, Inode>

  // ----- link counts -----------------------------------------------------------------------

  /** The dirents naming an inode. */
  ghost function NamesOf(d: Dirents, c: Ino): set<Entry> {
    set e | e in d && d[e] == c
  }

  /** The dirents of a directory that name directories. */
  ghost function Subdirs(inodes: Inodes, d: Dirents, p: Ino): set<Entry> {
    set e | e in d && e.parent == p && d[e] in inodes && inodes[d[e]].kind.Dir?
  }

  /** The link count an inode should have: its names; for a directory also itself, its child directories and, at the root, its parent. */
  ghost function Links(inodes: Inodes, d: Dirents, i: Ino): int
    requires i in inodes
  {
    if inodes[i].kind.Dir? then 1 + |NamesOf(d, i)| + |Subdirs(inodes, d, i)| + (if i == ROOT_INO then 1 else 0)
    else |NamesOf(d, i)|
  }

  ghost predicate Counted(inodes: Inodes, d: Dirents) {
    forall i :: i in inodes ==> inodes[i].nlink == Links(inodes, d, i)
  }

  /** Dirents lead from directories to inodes that exist. */
  ghost predicate Closed(inodes: Inodes, d: Dirents) {
    forall e :: e in d ==> d[e] in inodes && e.parent in inodes && inodes[e.parent].kind.Dir?
  }

  /** A file or symlink has a row only while something names it. */
  ghost predicate Linked(inodes: Inodes) {
    forall i :: i in inodes && !inodes[i].kind.Dir? ==> inodes[i].nlink >= 1
  }

  /** A directory has at most one name, the root none. */
  ghost predicate DirsOnce(inodes: Inodes, d: Dirents) {
    && (forall e1, e2 :: e1 in d && e2 in d && d[e1] == d[e2] && d[e1] in inodes && inodes[d[e1]].kind.Dir? ==> e1 == e2)
    && (forall e :: e in d ==> d[e] != ROOT_INO)
  }

  function Bump(inodes: Inodes, i: Ino, k: int): Inodes
    requires i in inodes
  {
    inodes[i := inodes[i].(nlink := inodes[i].nlink + k)]
  }

  /** Counts after one more name for c. */
  function PlusName(inodes: Inodes, e: Entry, c: Ino): Inodes
    requires c in inodes && e.parent in inodes
  {
    var named := Bump(inodes, c, 1);
    if inodes[c].kind.Dir? then Bump(named, e.parent, 1) else named
  }

  /** Counts after one name of c less. */
  function MinusName(inodes: Inodes, e: Entry, c: Ino): Inodes
    requires c in inodes && e.parent in inodes
  {
    var named := Bump(inodes, c, -1);
    if inodes[c].kind.Dir? then Bump(named, e.parent, -1) else named
  }

  lemma PlusOne<T>(a: set<T>, b: set<T>, x: T)
    requires b == a + {x} && x !in a
    ensures |b| == |a| + 1
  {
  }

  ghost predicate SameKinds(inodes: Inodes, inodes': Inodes) {
    inodes'.Keys == inodes.Keys && forall i :: i in inodes ==> inodes'[i].kind == inodes[i].kind
  }

  lemma NamesPlus(d: Dirents, e: Entry, c: Ino, i: Ino)
    requires e !in d
    ensures |NamesOf(d[e := c], i)| == |NamesOf(d, i)| + (if i == c then 1 else 0)
  {
    if i == c {
      assert NamesOf(d[e := c], i) == NamesOf(d, i) + {e};
      PlusOne(NamesOf(d, i), NamesOf(d[e := c], i), e);
    } else {
      assert NamesOf(d[e := c], i) == NamesOf(d, i);
    }
  }

  lemma SubdirsPlus(inodes: Inodes, inodes': Inodes, d: Dirents, e: Entry, c: Ino, p: Ino)
    requires SameKinds(inodes, inodes') && e !in d && c in inodes
    ensures |Subdirs(inodes', d[e := c], p)| ==
            |Subdirs(inodes, d, p)| + (if p == e.parent && inodes[c].kind.Dir? then 1 else 0)
  {
    if p == e.parent && inodes[c].kind.Dir? {
      assert Subdirs(inodes', d[e := c], p) == Subdirs(inodes, d, p) + {e};
      PlusOne(Subdirs(inodes, d, p), Subdirs(inodes', d[e := c], p), e);
    } else {
      assert Subdirs(inodes', d[e := c], p) == Subdirs(inodes, d, p);
    }
  }

  lemma LinksPlus(inodes: Inodes, inodes': Inodes, d: Dirents, e: Entry, c: Ino, i: Ino)
    requires SameKinds(inodes, inodes') && e !in d && c in inodes && i in inodes && e.parent in inodes && inodes[e.parent].kind.Dir?
    ensures Links(inodes', d[e := c], i) ==
            Links(inodes, d, i) + (if i == c then 1 else 0) + (if i == e.parent && inodes[c].kind.Dir? then 1 else 0)
  {
    NamesPlus(d, e, c, i);
    SubdirsPlus(inodes, inodes', d, e, c, i);
  }

  lemma PlusNameShape(inodes: Inodes, e: Entry, c: Ino)
    requires c in inodes && e.parent in inodes
    ensures SameKinds(inodes, PlusName(inodes, e, c))
    ensures forall i :: i in inodes ==>
              PlusName(inodes, e, c)[i].nlink ==
              inodes[i].nlink + (if i == c then 1 else 0) + (if i == e.parent && inodes[c].kind.Dir? then 1 else 0)
  {
  }

  lemma MinusNameShape(inodes: Inodes, e: Entry, c: Ino)
    requires c in inodes && e.parent in inodes
    ensures SameKinds(inodes, MinusName(inodes, e, c))
    ensures forall i :: i in inodes ==>
              MinusName(inodes, e, c)[i].nlink ==
              inodes[i].nlink - (if i == c then 1 else 0) - (if i == e.parent && inodes[c].kind.Dir? then 1 else 0)
  {
  }

  lemma PlusNameCounts(inodes: Inodes, d: Dirents, e: Entry, c: Ino)
    requires Counted(inodes, d) && e !in d && c in inodes && e.parent in inodes && inodes[e.parent].kind.Dir?
    ensures Counted(PlusName(inodes, e, c), d[e := c])
  {
    PlusNameShape(inodes, e, c);
    forall i | i in PlusName(inodes, e, c)
      ensures PlusName(inodes, e, c)[i].nlink == Links(PlusName(inodes, e, c), d[e := c], i)
    {
      LinksPlus(inodes, PlusName(inodes, e, c), d, e, c, i);
    }
  }

  lemma MinusNameCounts(inodes: Inodes, d: Dirents, e: Entry)
    requires Counted(inodes, d) && Closed(inodes, d) && e in d
    ensures Counted(MinusName(inodes, e, d[e]), d - {e})
  {
    var d0, inodes0 := d - {e}, MinusName(inodes, e, d[e]);
    assert d0[e := d[e]] == d;
    MinusNameShape(inodes, e, d[e]);
    forall i | i in inodes0
      ensures inodes0[i].nlink == Links(inodes0, d0, i)
    {
      LinksPlus(inodes0, inodes, d0, e, d[e], i);
    }
  }

  lemma PlusNameCloses(inodes: Inodes, d: Dirents, e: Entry, c: Ino)
    requires Closed(inodes, d) && c in inodes && e.parent in inodes && inodes[e.parent].kind.Dir?
    ensures Closed(PlusName(inodes, e, c), d[e := c])
  {
    PlusNameShape(inodes, e, c);
  }

  lemma MinusNameCloses(inodes: Inodes, d: Dirents, e: Entry)
    requires Closed(inodes, d) && e in d
    ensures Closed(MinusName(inodes, e, d[e]), d - {e})
  {
    MinusNameShape(inodes, e, d[e]);
  }

  lemma LinksOfOther(inodes: Inodes, inodes': Inodes, d: Dirents, j: Ino)
    requires Closed(inodes, d) && j in inodes && j in inodes' && inodes'[j].kind == inodes[j].kind
    requires forall e :: e in d ==> d[e] in inodes' && inodes'[d[e]].kind == inodes[d[e]].kind
    ensures Links(inodes', d, j) == Links(inodes, d, j)
  {
    assert Subdirs(inodes', d, j) == Subdirs(inodes, d, j);
  }

  /** Adding a row that nothing names changes nobody's count. */
  lemma RowCounts(inodes: Inodes, d: Dirents, i: Ino, n: Inode)
    requires Counted(inodes, d) && Closed(inodes, d) && i !in inodes && i != ROOT_INO
    requires n.nlink == if n.kind.Dir? then 1 else 0
    ensures Counted(inodes[i := n], d) && Closed(inodes[i := n], d)
  {
    var inodes' := inodes[i := n];
    forall j | j in inodes'
      ensures inodes'[j].nlink == Links(inodes', d, j)
    {
      if j == i {
        assert NamesOf(d, i) == {} && Subdirs(inodes', d, i) == {};
      } else {
        LinksOfOther(inodes, inodes', d, j);
      }
    }
  }

  lemma NamedLinks(inodes: Inodes, d: Dirents, e: Entry)
    requires e in d && d[e] in inodes
    ensures Links(inodes, d, d[e]) >= 1
  {
    assert e in NamesOf(d, d[e]);
  }

  /** Dropping the row of an inode without links neither leaves a name dangling nor changes a count. */
  lemma GoneCounts(inodes: Inodes, d: Dirents, i: Ino)
    requires Counted(inodes, d) && Closed(inodes, d) && i in inodes && inodes[i].nlink <= 0
    ensures Counted(inodes - {i}, d) && Closed(inodes - {i}, d) && !inodes[i].kind.Dir?
  {
    assert inodes[i].nlink == Links(inodes, d, i);
    var inodes' := inodes - {i};
    forall e | e in d
      ensures d[e] != i
    {
      if d[e] == i {
        NamedLinks(inodes, d, e);
      }
    }
    forall j | j in inodes'
      ensures inodes'[j].nlink == Links(inodes', d, j)
    {
      LinksOfOther(inodes, inodes', d, j);
    }
  }

  // ----- the whole tree --------------------------------------------------------------------

  /** What every operation keeps: exact link counts, no dangling name, one tree hanging from the root. */
  ghost predicate Sound(inodes: Inodes, d: Dirents) {
    && ROOT_INO in inodes && inodes[ROOT_INO].kind.Dir?
    && Counted(inodes, d) && Closed(inodes, d) && Linked(inodes) && DirsOnce(inodes, d)
    && Acyclic(d) && Rooted(d, ROOT_INO)
  }

  /** Sound, folded: see Bytes.Look. */
  ghost predicate Whole(inodes: Inodes, d: Dirents) {
    forall k: nat {:trigger Look(Layout, k)} :: Look(Layout, k) ==> Sound(inodes, d)
  }

  /** A directory the kernel can be holding: it is in the tree. */
  ghost predicate LiveDir(inodes: Inodes, d: Dirents, i: Ino) {
    i in inodes && inodes[i].kind.Dir? && Reaches(d, ROOT_INO, i)
  }

  lemma EmptyTree(inodes: Inodes)
    requires inodes == map[ROOT_INO := Inode(Dir, 2)]
    ensures Whole(inodes, map[])
  {
    assert NamesOf(map[], ROOT_INO) == {} && Subdirs(inodes, map[], ROOT_INO) == {};
    assert inodes[ROOT_INO].nlink == Links(inodes, map[], ROOT_INO);
    EmptyWalks();
  }

  lemma EmptyWalks()
    ensures Acyclic(map[]) && Rooted(map[], ROOT_INO)
  {
  }

  /** The row a new inode starts with, before it is named. */
  function NewRow(kind: Kind): Inode {
    Inode(kind, if kind.Dir? then 1 else 0)
  }

  lemma OncePlus(inodes: Inodes, inodes': Inodes, d: Dirents, e: Entry, c: Ino)
    requires DirsOnce(inodes, d) && SameKinds(inodes, inodes') && e !in d && c in inodes && c != ROOT_INO
    requires inodes[c].kind.Dir? ==> forall e' :: e' in d ==> d[e'] != c
    ensures DirsOnce(inodes', d[e := c])
  {
  }

  lemma FreshNeverNamed(inodes: Inodes, d: Dirents, ino: Ino)
    requires Closed(inodes, d) && ino !in inodes
    ensures Childless(d, ino) && forall e :: e in d ==> d[e] != ino
  {
  }

  lemma OnceMore(inodes: Inodes, inodes': Inodes, d: Dirents)
    requires DirsOnce(inodes, d) && forall e :: e in d && d[e] in inodes' && inodes'[d[e]].kind.Dir? ==> d[e] in inodes && inodes[d[e]].kind.Dir?
    ensures DirsOnce(inodes', d)
  {
  }

  /** A row that nothing names yet, then its first name. */
  lemma CreateWhole(inodes: Inodes, d: Dirents, e: Entry, ino: Ino, kind: Kind)
    requires Whole(inodes, d) && LiveDir(inodes, d, e.parent) && e !in d && ino !in inodes
    ensures Whole(PlusName(inodes[ino := NewRow(kind)], e, ino), d[e := ino])
  {
    assert Look(Layout, 0);
    CreateSound(inodes, d, e, ino, kind);
  }

  lemma CreateSound(inodes: Inodes, d: Dirents, e: Entry, ino: Ino, kind: Kind)
    requires Sound(inodes, d) && LiveDir(inodes, d, e.parent) && e !in d && ino !in inodes
    ensures Sound(PlusName(inodes[ino := NewRow(kind)], e, ino), d[e := ino])
  {
    var inodes0 := inodes[ino := NewRow(kind)];
    RowCounts(inodes, d, ino, NewRow(kind));
    FreshNeverNamed(inodes, d, ino);
    OnceMore(inodes, inodes0, d);
    PlusSound(inodes0, d, e, ino);
  }

  /** One more name for an inode that nothing is below, and a first one if it is a directory. */
  lemma PlusSound(inodes: Inodes, d: Dirents, e: Entry, c: Ino)
    requires ROOT_INO in inodes && inodes[ROOT_INO].kind.Dir? && Counted(inodes, d) && Closed(inodes, d)
    requires DirsOnce(inodes, d) && Acyclic(d) && Rooted(d, ROOT_INO)
    requires forall i :: i in inodes && i != c && !inodes[i].kind.Dir? ==> inodes[i].nlink >= 1
    requires e !in d && LiveDir(inodes, d, e.parent) && c in inodes && c != ROOT_INO && c != e.parent && Childless(d, c)
    requires inodes[c].kind.Dir? ==> forall e' :: e' in d ==> d[e'] != c
    requires !inodes[c].kind.Dir? ==> inodes[c].nlink >= 0
    ensures Sound(PlusName(inodes, e, c), d[e := c])
  {
    PlusNameCounts(inodes, d, e, c);
    PlusNameCloses(inodes, d, e, c);
    LeafAdded(d, e, c);
    PlusNameLinked(inodes, e, c);
    OncePlus(inodes, PlusName(inodes, e, c), d, e, c);
  }

  lemma PlusNameLinked(inodes: Inodes, e: Entry, c: Ino)
    requires c in inodes && e.parent in inodes && inodes[e.parent].kind.Dir?
    requires forall i :: i in inodes && i != c && !inodes[i].kind.Dir? ==> inodes[i].nlink >= 1
    requires !inodes[c].kind.Dir? ==> inodes[c].nlink >= 0
    ensures Linked(PlusName(inodes, e, c)) && SameKinds(inodes, PlusName(inodes, e, c))
  {
    PlusNameShape(inodes, e, c);
  }

  lemma LinkWhole(inodes: Inodes, d: Dirents, e: Entry, c: Ino)
    requires Whole(inodes, d) && LiveDir(inodes, d, e.parent) && e !in d && c in inodes && !inodes[c].kind.Dir?
    ensures Whole(PlusName(inodes, e, c), d[e := c])
  {
    assert Look(Layout, 0);
    LinkSound(inodes, d, e, c);
  }

  lemma LinkSound(inodes: Inodes, d: Dirents, e: Entry, c: Ino)
    requires Sound(inodes, d) && LiveDir(inodes, d, e.parent) && e !in d && c in inodes && !inodes[c].kind.Dir?
    ensures Sound(PlusName(inodes, e, c), d[e := c])
  {
    assert c != e.parent && c != ROOT_INO;
    PlusSound(inodes, d, e, c);
  }

  /** Counts after a name is removed: an inode left without links loses its row. */
  function Dropped(inodes: Inodes, e: Entry, c: Ino): Inodes
    requires c in inodes && e.parent in inodes
  {
    var m := MinusName(inodes, e, c);
    if m[c].nlink <= 0 then m - {c} else m
  }

  lemma DropWhole(inodes: Inodes, d: Dirents, e: Entry)
    requires Whole(inodes, d) && e in d && Childless(d, d[e])
    ensures d[e] in inodes && e.parent in inodes && d[e] != e.parent
    ensures Whole(Dropped(inodes, e, d[e]), d - {e})
    ensures d[e] !in Dropped(inodes, e, d[e]) ==> !inodes[d[e]].kind.Dir?
  {
    assert Look(Layout, 0);
    NotOwnParent(d, e);
    MinusNameCounts(inodes, d, e);
    MinusNameCloses(inodes, d, e);
    MinusNameShape(inodes, e, d[e]);
    RemoveLeaf(d, ROOT_INO, e);
    DropSound(inodes, d, e, MinusName(inodes, e, d[e]));
  }

  lemma DropShape(inodes: Inodes, d: Dirents, e: Entry)
    requires Whole(inodes, d) && e in d
    ensures d[e] in inodes && e.parent in inodes && d[e] != e.parent
    ensures d[e] !in Dropped(inodes, e, d[e]) ==> !inodes[d[e]].kind.Dir?
  {
    assert Look(Layout, 0);
    NotOwnParent(d, e);
    var m := MinusName(inodes, e, d[e]);
    MinusNameCounts(inodes, d, e);
    MinusNameCloses(inodes, d, e);
    MinusNameShape(inodes, e, d[e]);
    if m[d[e]].nlink <= 0 {
      GoneCounts(m, d - {e}, d[e]);
    }
  }

  /** Whatever the rows, a directory that loses its name while it still contains something is lost with its contents. */
  lemma DropLoses(inodes: Inodes, d: Dirents, e: Entry, inodes': Inodes)
    requires Whole(inodes, d) && e in d && !Childless(d, d[e])
    ensures !Whole(inodes', d - {e})
  {
    assert Look(Layout, 0);
    NotOwnParent(d, e);
    var x :| x in d && x.parent == d[e];
    assert x in d - {e} && inodes[d[e]].kind.Dir?;
    NamelessUnrooted(d - {e}, ROOT_INO, d[e]);
  }

  /** Removing a name keeps the tree sound if and only if it names nothing with contents. */
  lemma DropWholeIff(inodes: Inodes, d: Dirents, e: Entry)
    requires Whole(inodes, d) && e in d
    ensures d[e] in inodes && e.parent in inodes
    ensures Whole(Dropped(inodes, e, d[e]), d - {e}) <==> Childless(d, d[e])
  {
    DropShape(inodes, d, e);
    if Childless(d, d[e]) {
      DropWhole(inodes, d, e);
    } else {
      DropLoses(inodes, d, e, Dropped(inodes, e, d[e]));
    }
  }

  lemma DropSound(inodes: Inodes, d: Dirents, e: Entry, m: Inodes)
    requires Sound(inodes, d) && e in d && SameKinds(inodes, m) && Counted(m, d - {e}) && Closed(m, d - {e})
    requires forall i :: i in inodes && i != d[e] && !inodes[i].kind.Dir? ==> m[i].nlink == inodes[i].nlink
    requires Acyclic(d - {e}) && Rooted(d - {e}, ROOT_INO)
    ensures var m' := if m[d[e]].nlink <= 0 then m - {d[e]} else m; Sound(m', d - {e})
    ensures m[d[e]].nlink <= 0 ==> !inodes[d[e]].kind.Dir?
  {
    if m[d[e]].nlink <= 0 {
      GoneCounts(m, d - {e}, d[e]);
    }
  }

  // ----- moving a name ---------------------------------------------------------------------

  /** Counts after inode c moved between two directories: only a directory counts for them. */
  function Rehung(inodes: Inodes, c: Ino, op: Ino, np: Ino): Inodes
    requires c in inodes && op in inodes && np in inodes
  {
    if inodes[c].kind.Dir? && op != np then Bump(Bump(inodes, op, -1), np, 1) else inodes
  }

  lemma RehungIs(inodes: Inodes, c: Ino, e1: Entry, e2: Entry)
    requires c in inodes && e1.parent in inodes && e2.parent in inodes
    ensures Rehung(inodes, c, e1.parent, e2.parent) == PlusName(MinusName(inodes, e1, c), e2, c)
  {
    MinusNameShape(inodes, e1, c);
    PlusNameShape(MinusName(inodes, e1, c), e2, c);
    var m := PlusName(MinusName(inodes, e1, c), e2, c);
    forall i | i in inodes
      ensures m[i] == Rehung(inodes, c, e1.parent, e2.parent)[i]
    {
    }
  }

  lemma RehungShape(inodes: Inodes, c: Ino, op: Ino, np: Ino)
    requires c in inodes && op in inodes && np in inodes
    ensures SameKinds(inodes, Rehung(inodes, c, op, np))
    ensures forall i :: i in inodes && !inodes[i].kind.Dir? && inodes[op].kind.Dir? && inodes[np].kind.Dir? ==>
              Rehung(inodes, c, op, np)[i].nlink == inodes[i].nlink
  {
  }

  /** A file has nothing below it, so it never leads to a directory. */
  lemma FileReaches(inodes: Inodes, d: Dirents, c: Ino, i: Ino)
    requires Closed(inodes, d) && c in inodes && !inodes[c].kind.Dir? && i in inodes && inodes[i].kind.Dir?
    ensures !Reaches(d, c, i)
  {
    forall p
      ensures Walk(d, c, p) != Some(i)
    {
      ChildlessWalk(d, c, p);
    }
  }

  lemma MoveCounts(inodes: Inodes, d: Dirents, e1: Entry, e2: Entry)
    requires Counted(inodes, d) && Closed(inodes, d) && e1 in d && e2 !in d && e2.parent in inodes && inodes[e2.parent].kind.Dir?
    ensures d[e1] in inodes && e1.parent in inodes
    ensures var m := Rehung(inodes, d[e1], e1.parent, e2.parent);
            Counted(m, Moved(d, e1, e2)) && Closed(m, Moved(d, e1, e2)) && SameKinds(inodes, m) && (Linked(inodes) ==> Linked(m))
  {
    var c, m := d[e1], MinusName(inodes, e1, d[e1]);
    MinusNameCounts(inodes, d, e1);
    MinusNameCloses(inodes, d, e1);
    MinusNameShape(inodes, e1, c);
    PlusNameCounts(m, d - {e1}, e2, c);
    PlusNameCloses(m, d - {e1}, e2, c);
    RehungIs(inodes, c, e1, e2);
    RehungShape(inodes, c, e1.parent, e2.parent);
  }

  lemma OnceMoved(inodes: Inodes, inodes': Inodes, d: Dirents, e1: Entry, e2: Entry)
    requires DirsOnce(inodes, d) && SameKinds(inodes, inodes') && e1 in d && e2 !in d && d[e1] in inodes
    ensures DirsOnce(inodes', Moved(d, e1, e2))
  {
    OnceMore(inodes, inodes, d - {e1});
    OncePlus(inodes, inodes', d - {e1}, e2, d[e1]);
  }

  /** A rename the kernel may ask for: of a name that exists, into a directory it holds, not onto the same inode. */
  ghost predicate Asked(inodes: Inodes, d: Dirents, e1: Entry, e2: Entry) {
    e1 in d && d[e1] in inodes && LiveDir(inodes, d, e2.parent) && (e2 in d ==> d[e2] != d[e1])
  }

  /** It does not put a directory below itself, and nothing else hangs below what it replaces. */
  ghost predicate Safe(inodes: Inodes, d: Dirents, e1: Entry, e2: Entry) {
    && e1 in d && d[e1] in inodes && (inodes[d[e1]].kind.Dir? ==> !Reaches(d, d[e1], e2.parent))
    && (e2 in d ==> Childless(d - {e1}, d[e2]))
  }

  /** Safe, folded: see Bytes.Look. */
  ghost predicate Harmless(inodes: Inodes, d: Dirents, e1: Entry, e2: Entry) {
    forall k: nat {:trigger Look(Layout, k)} :: Look(Layout, k) ==> Safe(inodes, d, e1, e2)
  }

  /** The kernel refuses to put a directory below itself. */
  ghost predicate Permitted(inodes: Inodes, d: Dirents, e1: Entry, e2: Entry) {
    Asked(inodes, d, e1, e2) && (inodes[d[e1]].kind.Dir? ==> !Reaches(d, d[e1], e2.parent))
  }

  /** And a directory in the way is empty. */
  ghost predicate Renamable(inodes: Inodes, d: Dirents, e1: Entry, e2: Entry) {
    Permitted(inodes, d, e1, e2) && (e2 in d ==> Childless(d, d[e2]))
  }

  lemma RenamableIsHarmless(inodes: Inodes, d: Dirents, e1: Entry, e2: Entry)
    requires Renamable(inodes, d, e1, e2)
    ensures Harmless(inodes, d, e1, e2)
  {
  }

  /** The rows once the destination, if any, has lost its name. */
  function Vacated(inodes: Inodes, d: Dirents, e: Entry): Inodes
    requires e in d ==> d[e] in inodes && e.parent in inodes
  {
    if e in d then Dropped(inodes, e, d[e]) else inodes
  }

  lemma AskedShape(inodes: Inodes, d: Dirents, e1: Entry, e2: Entry)
    requires Whole(inodes, d) && Asked(inodes, d, e1, e2)
    ensures e2 in d ==> d[e2] in inodes && e2.parent in inodes && d[e2] != e2.parent && d[e2] != d[e1]
    ensures e1 != e2 && (!inodes[d[e1]].kind.Dir? ==> !Reaches(d, d[e1], e2.parent))
  {
    assert Look(Layout, 0);
    if e2 in d {
      NotOwnParent(d, e2);
    }
    if !inodes[d[e1]].kind.Dir? {
      FileReaches(inodes, d, d[e1], e2.parent);
    }
  }

  /** Exact counts and no dangling name, whatever hangs where. */
  ghost predicate Exact(inodes: Inodes, d: Dirents, v: Inodes) {
    && Counted(v, d) && Closed(v, d) && Linked(v)
    && (forall i :: i in v ==> i in inodes && v[i].kind == inodes[i].kind)
    && (forall i :: i in inodes && inodes[i].kind.Dir? ==> i in v)
  }

  /** Vacating the destination leaves every count exact. */
  lemma VacateCounts(inodes: Inodes, d: Dirents, e2: Entry)
    requires Sound(inodes, d) && (e2 in d ==> d[e2] in inodes && e2.parent in inodes && d[e2] != e2.parent)
    ensures Exact(inodes, d - {e2}, Vacated(inodes, d, e2))
    ensures forall i :: i in inodes && (e2 in d ==> i != d[e2]) ==> i in Vacated(inodes, d, e2)
  {
    if e2 in d {
      VacateDrops(inodes, d, e2, d[e2], MinusName(inodes, e2, d[e2]));
    } else {
      assert d - {e2} == d;
    }
  }

  lemma VacateDrops(inodes: Inodes, d: Dirents, e2: Entry, c: Ino, m: Inodes)
    requires Sound(inodes, d) && e2 in d && d[e2] == c && c in inodes && e2.parent in inodes && c != e2.parent
    requires m == MinusName(inodes, e2, c)
    ensures SameKinds(inodes, m) && Exact(inodes, d - {e2}, if m[c].nlink <= 0 then m - {c} else m)
  {
    MinusNameCounts(inodes, d, e2);
    MinusNameCloses(inodes, d, e2);
    MinusNameShape(inodes, e2, c);
    RowLeaves(inodes, d - {e2}, m, c);
  }

  lemma RowLeaves(inodes: Inodes, d: Dirents, m: Inodes, c: Ino)
    requires SameKinds(inodes, m) && Counted(m, d) && Closed(m, d) && c in m
    requires forall i :: i in m && i != c && !m[i].kind.Dir? ==> m[i].nlink >= 1
    ensures Exact(inodes, d, if m[c].nlink <= 0 then m - {c} else m)
  {
    if m[c].nlink <= 0 {
      GoneCounts(m, d, c);
    }
  }

  /** The inode rows after a rename. */
  ghost predicate RenameRows(inodes: Inodes, d: Dirents, e1: Entry, e2: Entry, inodes': Inodes) {
    && e1 in d && (e2 in d ==> d[e2] in inodes && e2.parent in inodes)
    && var v := Vacated(inodes, d, e2);
    d[e1] in v && e1.parent in v && e2.parent in v && inodes' == Rehung(v, d[e1], e1.parent, e2.parent)
  }

  lemma RenameShape(inodes: Inodes, d: Dirents, e1: Entry, e2: Entry)
    requires Whole(inodes, d) && Asked(inodes, d, e1, e2)
    ensures (e2 in d ==> d[e2] in inodes && e2.parent in inodes && d[e2] != e2.parent && d[e2] != d[e1]) && e1 != e2
    ensures var v := Vacated(inodes, d, e2); d[e1] in v && e1.parent in v && e2.parent in v
  {
    AskedShape(inodes, d, e1, e2);
    assert Look(Layout, 0);
    VacateCounts(inodes, d, e2);
  }

  /** Replacing the destination and moving the source keeps the tree sound. */
  lemma RenameWhole(inodes: Inodes, d: Dirents, e1: Entry, e2: Entry)
    requires Whole(inodes, d) && Asked(inodes, d, e1, e2) && Harmless(inodes, d, e1, e2)
    ensures (e2 in d ==> d[e2] in inodes && e2.parent in inodes && d[e2] != e2.parent && d[e2] != d[e1]) && e1 != e2
    ensures var v := Vacated(inodes, d, e2);
            && d[e1] in v && e1.parent in v && e2.parent in v
            && Whole(Rehung(v, d[e1], e1.parent, e2.parent), Moved(d, e1, e2))
  {
    RenameShape(inodes, d, e1, e2);
    AskedShape(inodes, d, e1, e2);
    assert Look(Layout, 0);
    RenameSound(inodes, d, e1, e2, Vacated(inodes, d, e2));
  }

  lemma RenameSound(inodes: Inodes, d: Dirents, e1: Entry, e2: Entry, v: Inodes)
    requires Sound(inodes, d) && e1 in d && e1 != e2 && LiveDir(inodes, d, e2.parent) && (e2 in d ==> Childless(d - {e1}, d[e2]))
    requires (e2 in d ==> d[e2] in inodes && e2.parent in inodes && d[e2] != e2.parent) && v == Vacated(inodes, d, e2)
    requires d[e1] in v && e1.parent in v && e2.parent in v && !Reaches(d, d[e1], e2.parent)
    ensures Sound(Rehung(v, d[e1], e1.parent, e2.parent), Moved(d, e1, e2))
  {
    var d0, m := d - {e2}, Rehung(v, d[e1], e1.parent, e2.parent);
    VacateCounts(inodes, d, e2);
    MoveCounts(v, d0, e1, e2);
    MoveKeepsTree(d, ROOT_INO, e1, e2);
    OnceMore(inodes, v, d0);
    OnceMoved(v, m, d0, e1, e2);
    MovedOver(d, e1, e2);
  }

  lemma MovedOver(d: Dirents, e1: Entry, e2: Entry)
    requires e1 in d && e1 != e2
    ensures Moved(d - {e2}, e1, e2) == Moved(d, e1, e2)
  {
  }

  /** Whatever the rows: otherwise it cuts off what hangs below the destination, or makes a cycle. */
  lemma RenameLoses(inodes: Inodes, d: Dirents, e1: Entry, e2: Entry, inodes': Inodes)
    requires Whole(inodes, d) && Asked(inodes, d, e1, e2) && !Harmless(inodes, d, e1, e2)
    ensures !Whole(inodes', Moved(d, e1, e2))
  {
    AskedShape(inodes, d, e1, e2);
    assert Look(Layout, 0);
    if Reaches(d, d[e1], e2.parent) {
      MoveCycles(d, e1, e2);
    } else {
      var x :| x in d - {e1} && x.parent == d[e2];
      assert x in Moved(d, e1, e2) && inodes[d[e2]].kind.Dir?;
      NamelessUnrooted(Moved(d, e1, e2), ROOT_INO, d[e2]);
    }
  }

  /** A rename keeps the tree sound if and only if it is harmless. */
  lemma RenameWholeIff(inodes: Inodes, d: Dirents, e1: Entry, e2: Entry)
    requires Whole(inodes, d) && Asked(inodes, d, e1, e2)
    ensures (e2 in d ==> d[e2] in inodes && e2.parent in inodes && d[e2] != e2.parent && d[e2] != d[e1]) && e1 != e2
    ensures var v := Vacated(inodes, d, e2);
            && d[e1] in v && e1.parent in v && e2.parent in v
            && (Whole(Rehung(v, d[e1], e1.parent, e2.parent), Moved(d, e1, e2)) <==> Harmless(inodes, d, e1, e2))
  {
    RenameShape(inodes, d, e1, e2);
    if Harmless(inodes, d, e1, e2) {
      RenameWhole(inodes, d, e1, e2);
    } else {
      RenameLoses(inodes, d, e1, e2, Rehung(Vacated(inodes, d, e2), d[e1], e1.parent, e2.parent));
    }
  }

  /**
    Renaming moves the whole subtree: every path below the new name resolves to what it resolved to below the old name,
    and the old name is gone, whether or not the destination existed.
   */
  lemma RenameMovesSubtree(inodes: Inodes, d: Dirents, e1: Entry, e2: Entry, to1: seq<string>, to2: seq<string>, q: seq<string>)
    requires Whole(inodes, d) && Renamable(inodes, d, e1, e2)
    requires Walk(d, ROOT_INO, to1) == Some(e1.parent) && Walk(d, ROOT_INO, to2) == Some(e2.parent)
    ensures Walk(Moved(d, e1, e2), ROOT_INO, to2 + [e2.name] + q) == Walk(d, ROOT_INO, to1 + [e1.name] + q)
    ensures Walk(Moved(d, e1, e2), ROOT_INO, to1 + [e1.name] + q) == None
  {
    AskedShape(inodes, d, e1, e2);
    assert Look(Layout, 0);
    MoveSubtree(d, ROOT_INO, e1, e2, to2, to1, q);
    OldNameGone(d, ROOT_INO, e1, e2, to1, q);
  }

  // ----- the tables ------------------------------------------------------------------------

  class Tree {
    var inodes: Inodes
    var dirents: Dirents
    var next: Ino  // AUTOINCREMENT: inode numbers are never reused

    ghost predicate Valid()
      reads this
    {
      Whole(inodes, dirents) && (forall i :: i in inodes ==> ROOT_INO <= i < next) && next > ROOT_INO
    }

    constructor ()
      ensures Valid() && dirents == map[] && inodes.Keys == {ROOT_INO} && next == 2
    {
      inodes := map[ROOT_INO := Inode(Dir, 2)];
      dirents, next := map[], 2;
      new;
      EmptyTree(inodes);
    }

    /** Resolves an absolute path, component by component; nothing is found below a file. */
    method Resolve(path: seq<string>) returns (r: Option<Ino>)
      requires Valid()
      ensures r == Walk(dirents, ROOT_INO, path)
    {
      assert Look(Layout, 0);
      var cur := ROOT_INO;
      for k := 0 to |path|
        invariant cur in inodes && Walk(dirents, ROOT_INO, path) == Walk(dirents, cur, path[k..])
      {
        assert path[k..][1..] == path[k + 1..];
        if !inodes[cur].kind.Dir? || Entry(cur, path[k]) !in dirents {
          return None;
        }
        cur := dirents[Entry(cur, path[k])];
      }
      r := Some(cur);
    }

    /** A name leads from a directory to an inode that exists; a file has nothing below it. */
    lemma NameLeads(e: Entry)
      requires Valid() && e in dirents
      ensures dirents[e] in inodes && e.parent in inodes && dirents[e] != e.parent
      ensures !inodes[dirents[e]].kind.Dir? ==> Childless(dirents, dirents[e])
    {
      assert Look(Layout, 0);
      NotOwnParent(dirents, e);
    }

    /**
      Link counts in every reachable state: a file or symlink counts its names and has a row only while it has one; a
      directory counts itself, its name and its child directories, the root once more.
     */
    lemma LinksExact(i: Ino)
      requires Valid()
      ensures i in inodes && !inodes[i].kind.Dir? ==> inodes[i].nlink == |NamesOf(dirents, i)| >= 1
      ensures i in inodes && inodes[i].kind.Dir? ==>
                inodes[i].nlink == 1 + |NamesOf(dirents, i)| + |Subdirs(inodes, dirents, i)| + if i == ROOT_INO then 1 else 0
      ensures i in inodes && inodes[i].kind.Dir? ==> |NamesOf(dirents, i)| <= if i == ROOT_INO then 0 else 1
      ensures NamesOf(dirents, i) != {} ==> i in inodes
    {
      assert Look(Layout, 0);
      assert i in inodes ==> inodes[i].nlink == Links(inodes, dirents, i);
      if i in inodes && inodes[i].kind.Dir? && NamesOf(dirents, i) != {} {
        var e :| e in NamesOf(dirents, i);
        assert NamesOf(dirents, i) == {e};
      }
      if e :| e in NamesOf(dirents, i) {
        assert e in dirents;
      }
    }

    /** A new file, symlink or directory under a name that is free. */
    method Create(parent: Ino, name: string, kind: Kind) returns (ino: Ino)
      requires Valid() && LiveDir(inodes, dirents, parent) && Entry(parent, name) !in dirents
      modifies this
      ensures Valid() && ino == old(next) && next == old(next) + 1 && ino !in old(inodes)
      ensures dirents == old(dirents)[Entry(parent, name) := ino]
      ensures inodes == PlusName(old(inodes)[ino := NewRow(kind)], Entry(parent, name), ino)
    {
      ghost var inodes0, dirents0, e := inodes, dirents, Entry(parent, name);
      ino := next;
      next := next + 1;
      CreateWhole(inodes0, dirents0, e, ino, kind);
      inodes := inodes[ino := Inode(kind, if kind.Dir? then 2 else 1)];
      dirents := dirents[Entry(parent, name) := ino];
      if kind.Dir? {
        inodes := Bump(inodes, parent, 1);
      }
      assert inodes == PlusName(inodes0[ino := NewRow(kind)], e, ino);
      assert forall i :: i in inodes ==> i in inodes0 || i == ino;
    }

    /** One more name for an existing file. */
    method Link(parent: Ino, name: string, target: Ino)
      requires Valid() && LiveDir(inodes, dirents, parent) && Entry(parent, name) !in dirents
      requires target in inodes && !inodes[target].kind.Dir?
      modifies this`inodes, this`dirents
      ensures Valid() && dirents == old(dirents)[Entry(parent, name) := target]
      ensures inodes == Bump(old(inodes), target, 1)
    {
      LinkWhole(inodes, dirents, Entry(parent, name), target);
      dirents := dirents[Entry(parent, name) := target];
      inodes := Bump(inodes, target, 1);
    }

    /**
      Removes a name; an inode whose count reaches 0 loses its row. None: no such name. Whether a directory is empty is for
      the caller to ask first: the tree stays sound exactly if it is.
     */
    method UnlinkDirent(parent: Ino, name: string) returns (r: Option<(Ino, int)>)
      requires Valid()
      modifies this`inodes, this`dirents
      ensures var e, d := Entry(parent, name), old(dirents);
              Valid() <==> (e in d ==> Childless(d, d[e]))
      ensures r.None? <==> Entry(parent, name) !in old(dirents)
      ensures r.None? ==> inodes == old(inodes) && dirents == old(dirents)
      ensures r.Some? ==>
                && r.value.0 == old(dirents)[Entry(parent, name)] && dirents == old(dirents) - {Entry(parent, name)}
                && r.value.0 in old(inodes) && parent in old(inodes)
                && inodes == Dropped(old(inodes), Entry(parent, name), r.value.0)
                && (r.value.1 <= 0 <==> r.value.0 !in inodes)
                && (r.value.1 <= 0 ==> !old(inodes)[r.value.0].kind.Dir?)
                && inodes.Keys == old(inodes).Keys - if r.value.1 <= 0 then {r.value.0} else {}
    {
      var e := Entry(parent, name);
      if e !in dirents {
        return None;
      }
      var child := dirents[e];
      ghost var inodes0, dirents0 := inodes, dirents;
      DropShape(inodes0, dirents0, e);
      DropWholeIff(inodes0, dirents0, e);
      var kind := inodes[child].kind;
      dirents := dirents - {e};
      inodes := Bump(inodes, child, -1);
      if kind.Dir? {
        inodes := Bump(inodes, parent, -1);
      }
      assert inodes == MinusName(inodes0, e, child);
      var nlink := inodes[child].nlink;
      if nlink <= 0 {
        inodes := inodes - {child};
      }
      assert inodes == Dropped(inodes0, e, child);
      r := Some((child, nlink));
    }

    /**
      Moves a name, replacing what the destination named. Yields the replaced inode if it lost its row. Whether the rename
      is harmless is for others to ask first: the tree stays sound exactly if it is.
     */
    method Rename(op: Ino, oname: string, np: Ino, nname: string) returns (found: bool, replaced: Option<Ino>)
      requires Valid()
      requires Entry(op, oname) in dirents ==> Asked(inodes, dirents, Entry(op, oname), Entry(np, nname))
      modifies this`inodes, this`dirents
      ensures Valid() <==> (found ==> old(Harmless(inodes, dirents, Entry(op, oname), Entry(np, nname))))
      ensures found <==> Entry(op, oname) in old(dirents)
      ensures !found ==> inodes == old(inodes) && dirents == old(dirents) && replaced == None
      ensures found ==> dirents == Moved(old(dirents), Entry(op, oname), Entry(np, nname))
      ensures found ==> RenameRows(old(inodes), old(dirents), Entry(op, oname), Entry(np, nname), inodes)
      ensures found ==>
                var e := Entry(np, nname);
                replaced == if e in old(dirents) && old(dirents)[e] !in inodes then Some(old(dirents)[e]) else None
      ensures inodes.Keys == old(inodes).Keys - if replaced.Some? then {replaced.value} else {}
      ensures replaced.Some? ==> replaced.value in old(inodes)
    {
      if Entry(op, oname) !in dirents {
        return false, None;
      }
      found := true;
      replaced := Replace(Entry(op, oname), Entry(np, nname));
    }

    /** The rename of a name that exists. */
    method Replace(e1: Entry, e2: Entry) returns (replaced: Option<Ino>)
      requires Valid() && Asked(inodes, dirents, e1, e2)
      modifies this`inodes, this`dirents
      ensures Valid() <==> old(Harmless(inodes, dirents, e1, e2))
      ensures dirents == Moved(old(dirents), e1, e2) && RenameRows(old(inodes), old(dirents), e1, e2, inodes)
      ensures replaced == if e2 in old(dirents) && old(dirents)[e2] !in inodes then Some(old(dirents)[e2]) else None
      ensures inodes.Keys == old(inodes).Keys - if replaced.Some? then {replaced.value} else {}
      ensures replaced.Some? ==> replaced.value in old(inodes)
    {
      ghost var inodes0, dirents0 := inodes, dirents;
      RenameWholeIff(inodes0, dirents0, e1, e2);
      MovedOver(dirents0, e1, e2);
      var src := dirents[e1];
      replaced := MakeRoom(e2);
      Rehang(e1, e2, src);
    }

    /** Takes away the name a rename will use, if it is taken. */
    method MakeRoom(e: Entry) returns (replaced: Option<Ino>)
      requires e in dirents ==> dirents[e] in inodes && e.parent in inodes
      modifies this`inodes, this`dirents
      ensures dirents == old(dirents) - {e} && inodes == Vacated(old(inodes), old(dirents), e)
      ensures replaced == if e in old(dirents) && old(dirents)[e] !in inodes then Some(old(dirents)[e]) else None
      ensures inodes.Keys == old(inodes).Keys - if replaced.Some? then {replaced.value} else {}
      ensures replaced.Some? ==> replaced.value in old(inodes)
    {
      replaced := None;
      if e in dirents {
        replaced := Vacate(e);
      } else {
        assert dirents - {e} == dirents;
      }
    }

    /** Hangs an inode's name e1 up as e2. */
    method Rehang(e1: Entry, e2: Entry, src: Ino)
      requires e1 in dirents && dirents[e1] == src && src in inodes && e1.parent in inodes && e2.parent in inodes
      modifies this`inodes, this`dirents
      ensures dirents == Moved(old(dirents), e1, e2) && inodes == Rehung(old(inodes), src, e1.parent, e2.parent)
      ensures inodes.Keys == old(inodes).Keys
    {
      dirents := (dirents - {e1})[e2 := src];
      if inodes[src].kind.Dir? && e1.parent != e2.parent {
        inodes := Bump(inodes, e1.parent, -1);
        inodes := Bump(inodes, e2.parent, 1);
      }
    }

    /** Takes the destination's name away; its inode is yielded when that was its last name. */
    method Vacate(e: Entry) returns (replaced: Option<Ino>)
      requires e in dirents && dirents[e] in inodes && e.parent in inodes
      modifies this`inodes, this`dirents
      ensures dirents == old(dirents) - {e} && inodes == Dropped(old(inodes), e, old(dirents)[e])
      ensures replaced == if old(dirents)[e] !in inodes then Some(old(dirents)[e]) else None
      ensures inodes.Keys == old(inodes).Keys - if replaced.Some? then {replaced.value} else {}
    {
      var child := dirents[e];
      var kind := inodes[child].kind;
      dirents := dirents - {e};
      inodes := Bump(inodes, child, -1);
      if kind.Dir? {
        inodes := Bump(inodes, e.parent, -1);
      }
      if inodes[child].nlink > 0 {
        return None;  // still referenced elsewhere
      }
      inodes := inodes - {child};
      replaced := Some(child);
    }
  }

  /** A childless inode can be given one more name. */
  lemma LeafAdded(d: Dirents, e: Entry, c: Ino)
    requires Acyclic(d) && Rooted(d, ROOT_INO) && e !in d && Childless(d, c) && c != e.parent && Reaches(d, ROOT_INO, e.parent)
    ensures Acyclic(d[e := c]) && Rooted(d[e := c], ROOT_INO)
  {
    forall p
      ensures Walk(d, c, p) != Some(e.parent)
    {
      ChildlessWalk(d, c, p);
    }
    AddEdgeAcyclic(d, e, c);
    AddEdgeRooted(d, ROOT_INO, e, c);
  }

  lemma NotOwnParent(d: Dirents, e: Entry)
    requires Acyclic(d) && e in d
    ensures d[e] != e.parent
  {
    OneName(d, e);
  }
}
