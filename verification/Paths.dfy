/** Directory entries as a graph: walking names, cycles, and what moving one entry does to every path. */
module Paths {
  import opened Bytes

  /** Primary key of the dirents table. */
  datatype Entry = Entry(parent: Ino, name: string)
  type Dirents = map<Entry, Ino>

  /** Where a list of names leads from an inode. */
  function Walk(d: Dirents, from: Ino, path: seq<string>): Option<Ino>
    decreases |path|
  {
    if path == [] then Some(from)
    else if Entry(from, path[0]) !in d then None
    else Walk(d, d[Entry(from, path[0])], path[1..])
  }

  lemma {:induction false} WalkAppend(d: Dirents, from: Ino, p: seq<string>, q: seq<string>)
    ensures Walk(d, from, p + q) == match Walk(d, from, p) case None => None case Some(x) => Walk(d, x, q)
    decreases |p|
  {
    if p == [] {
      assert p + q == q;
    } else {
      assert (p + q)[1..] == p[1..] + q;
      if Entry(from, p[0]) in d {
        WalkAppend(d, d[Entry(from, p[0])], p[1..], q);
      }
    }
  }

  /** The walk never asks for one of these two names. */
  predicate Avoids(d: Dirents, from: Ino, path: seq<string>, e1: Entry, e2: Entry)
    decreases |path|
  {
    path == [] ||
    (&& Entry(from, path[0]) != e1 && Entry(from, path[0]) != e2
     && (Entry(from, path[0]) in d ==> Avoids(d, d[Entry(from, path[0])], path[1..], e1, e2)))
  }

  /** Two tables that differ at most in two names. */
  ghost predicate SameBut(d: Dirents, d': Dirents, e1: Entry, e2: Entry) {
    forall e :: e != e1 && e != e2 ==> (e in d <==> e in d') && (e in d ==> d[e] == d'[e])
  }

  lemma {:induction false} WalkSame(d: Dirents, d': Dirents, from: Ino, path: seq<string>, e1: Entry, e2: Entry)
    requires SameBut(d, d', e1, e2) && Avoids(d, from, path, e1, e2)
    ensures Walk(d', from, path) == Walk(d, from, path)
    ensures Avoids(d', from, path, e1, e2)
    decreases |path|
  {
    if path != [] && Entry(from, path[0]) in d {
      WalkSame(d, d', d[Entry(from, path[0])], path[1..], e1, e2);
    }
  }

  ghost predicate Reaches(d: Dirents, a: Ino, b: Ino) {
    exists p :: Walk(d, a, p) == Some(b)
  }

  lemma ReachesBy(d: Dirents, a: Ino, p: seq<string>, b: Ino)
    requires Walk(d, a, p) == Some(b)
    ensures Reaches(d, a, b)
  {
  }

  lemma ReachesTrans(d: Dirents, a: Ino, b: Ino, c: Ino)
    requires Reaches(d, a, b) && Reaches(d, b, c)
    ensures Reaches(d, a, c)
  {
    var p :| Walk(d, a, p) == Some(b);
    var q :| Walk(d, b, q) == Some(c);
    WalkAppend(d, a, p, q);
    ReachesBy(d, a, p + q, c);
  }

  lemma ReachesChild(d: Dirents, e: Entry)
    requires e in d
    ensures Reaches(d, e.parent, d[e])
  {
    OneName(d, e);
    ReachesBy(d, e.parent, [e.name], d[e]);
  }

  /** A walk that uses one of the names splits at its first use ... */
  lemma {:induction false} FirstUse(d: Dirents, from: Ino, path: seq<string>, e1: Entry, e2: Entry) returns (a: seq<string>, e: Entry)
    requires !Avoids(d, from, path, e1, e2)
    ensures e == e1 || e == e2
    ensures Avoids(d, from, a, e1, e2) && Walk(d, from, a) == Some(e.parent)
    decreases |path|
  {
    if Entry(from, path[0]) == e1 || Entry(from, path[0]) == e2 {
      a, e := [], Entry(from, path[0]);
    } else {
      a, e := FirstUse(d, d[Entry(from, path[0])], path[1..], e1, e2);
      a := [path[0]] + a;
    }
  }

  /** ... and, when it arrives somewhere, after its last use. */
  lemma {:induction false} LastUse(d: Dirents, from: Ino, path: seq<string>, x: Ino, e1: Entry, e2: Entry) returns (b: seq<string>, e: Entry)
    requires !Avoids(d, from, path, e1, e2) && Walk(d, from, path) == Some(x)
    ensures (e == e1 || e == e2) && e in d
    ensures Avoids(d, d[e], b, e1, e2) && Walk(d, d[e], b) == Some(x)
    decreases |path|
  {
    var step := Entry(from, path[0]);
    var next := d[step];
    if Avoids(d, next, path[1..], e1, e2) {
      b, e := path[1..], step;
    } else {
      b, e := LastUse(d, next, path[1..], x, e1, e2);
    }
  }

  // ----- trees -----------------------------------------------------------------------------

  ghost predicate Acyclic(d: Dirents) {
    forall i: Ino, p :: p != [] ==> Walk(d, i, p) != Some(i)
  }

  /** Every directory with something in it can be reached from the root. */
  ghost predicate Rooted(d: Dirents, root: Ino) {
    forall e :: e in d ==> Reaches(d, root, e.parent)
  }

  predicate Childless(d: Dirents, c: Ino) {
    forall e :: e in d ==> e.parent != c
  }

  lemma ChildlessWalk(d: Dirents, c: Ino, p: seq<string>)
    requires Childless(d, c)
    ensures Walk(d, c, p) == if p == [] then Some(c) else None
  {
  }

  /** A walk that takes a step arrives by a name. */
  lemma {:induction false} ArrivesByName(d: Dirents, from: Ino, p: seq<string>, c: Ino) returns (e: Entry)
    requires p != [] && Walk(d, from, p) == Some(c)
    ensures e in d && d[e] == c
    decreases |p|
  {
    e := Entry(from, p[0]);
    if |p| > 1 {
      e := ArrivesByName(d, d[e], p[1..], c);
    }
  }

  /** What an inode without a name contains hangs from nothing. */
  lemma NamelessUnrooted(d: Dirents, root: Ino, c: Ino)
    requires c != root && (forall e :: e in d ==> d[e] != c) && !Childless(d, c)
    ensures !Rooted(d, root)
  {
    if Reaches(d, root, c) {
      var p :| Walk(d, root, p) == Some(c);
      var e := ArrivesByName(d, root, p, c);
      assert false;
    }
  }

  /** Taking away the name of a childless inode keeps the tree, and every path that does not ask for that name. */
  lemma RemoveLeaf(d: Dirents, root: Ino, e: Entry)
    requires e in d && Acyclic(d) && Rooted(d, root) && Childless(d, d[e])
    ensures Acyclic(d - {e}) && Rooted(d - {e}, root)
  {
    var d' := d - {e};
    forall i: Ino, p | p != []
      ensures Walk(d', i, p) != Some(i)
    {
      if Walk(d', i, p) == Some(i) {
        SubWalk(d', d, i, p, i);
      }
    }
    forall x | x in d'
      ensures Reaches(d', root, x.parent)
    {
      LeafStaysReached(d, root, e, x.parent);
    }
  }

  lemma LeafStaysReached(d: Dirents, root: Ino, e: Entry, x: Ino)
    requires e in d && Childless(d, d[e]) && Reaches(d, root, x) && x != d[e]
    ensures Reaches(d - {e}, root, x)
  {
    var p :| Walk(d, root, p) == Some(x);
    if !Avoids(d, root, p, e, e) {
      var b, _ := LastUse(d, root, p, x, e, e);
      ChildlessWalk(d, d[e], b);
      assert false;
    }
    WalkSame(d, d - {e}, root, p, e, e);
    ReachesBy(d - {e}, root, p, x);
  }

  /** Walks survive in a larger table. */
  lemma {:induction false} SubWalk(d: Dirents, d': Dirents, from: Ino, p: seq<string>, x: Ino)
    requires (forall e :: e in d ==> e in d' && d'[e] == d[e]) && Walk(d, from, p) == Some(x)
    ensures Walk(d', from, p) == Some(x)
    decreases |p|
  {
    if p != [] {
      SubWalk(d, d', d[Entry(from, p[0])], p[1..], x);
    }
  }

  /** A new name for an inode that cannot reach the directory it is put in. */
  lemma AddEdgeAcyclic(d: Dirents, e: Entry, c: Ino)
    requires e !in d && Acyclic(d) && !Reaches(d, c, e.parent)
    ensures Acyclic(d[e := c])
  {
    var d' := d[e := c];
    forall i: Ino, p | p != []
      ensures Walk(d', i, p) != Some(i)
    {
      if Walk(d', i, p) == Some(i) {
        if Avoids(d', i, p, e, e) {
          WalkSame(d', d, i, p, e, e);
        } else {
          var a, _ := FirstUse(d', i, p, e, e);
          WalkSame(d', d, i, a, e, e);
          ReachesBy(d, i, a, e.parent);
          var b, _ := LastUse(d', i, p, i, e, e);
          WalkSame(d', d, c, b, e, e);
          ReachesBy(d, c, b, i);
          ReachesTrans(d, c, i, e.parent);
        }
      }
    }
  }

  lemma AddEdgeRooted(d: Dirents, root: Ino, e: Entry, c: Ino)
    requires e !in d && Rooted(d, root) && Reaches(d, root, e.parent)
    ensures Rooted(d[e := c], root)
  {
    var d' := d[e := c];
    forall x | x in d'
      ensures Reaches(d', root, x.parent)
    {
      var p :| Walk(d, root, p) == Some(x.parent);
      SubWalk(d, d', root, p, x.parent);
      ReachesBy(d', root, p, x.parent);
    }
  }

  // ----- moving an entry -------------------------------------------------------------------

  function Moved(d: Dirents, e1: Entry, e2: Entry): Dirents
    requires e1 in d
  {
    (d - {e1})[e2 := d[e1]]
  }

  /** Below the moved inode nothing is touched, before or after. */
  lemma {:induction false} BelowAvoids(d: Dirents, x: Ino, p: seq<string>, e1: Entry, e2: Entry)
    requires !Reaches(d, x, e1.parent) && !Reaches(d, x, e2.parent)
    ensures Avoids(d, x, p, e1, e2)
  {
    if !Avoids(d, x, p, e1, e2) {
      var a, e := FirstUse(d, x, p, e1, e2);
      ReachesBy(d, x, a, e.parent);
    }
  }

  lemma OneName(d: Dirents, e: Entry)
    requires e in d
    ensures Walk(d, e.parent, [e.name]) == Some(d[e])
  {
    assert [e.name][1..] == [];
  }

  /** The moved inode's old directory is not below it. */
  lemma ParentNotBelow(d: Dirents, e: Entry)
    requires e in d && Acyclic(d)
    ensures !Reaches(d, d[e], e.parent)
  {
    OneName(d, e);
    forall p
      ensures Walk(d, d[e], p) != Some(e.parent)
    {
      WalkAppend(d, d[e], p, [e.name]);
    }
  }

  /** What a path to the new directory asks for on its way is neither name, in a tree. */
  lemma WayAvoids(d: Dirents, from: Ino, p: seq<string>, e1: Entry, e2: Entry)
    requires e1 in d && Acyclic(d) && !Reaches(d, d[e1], e2.parent)
    requires Walk(d, from, p) == Some(e2.parent)
    ensures Avoids(d, from, p, e1, e2)
  {
    if !Avoids(d, from, p, e1, e2) {
      var b, e := LastUse(d, from, p, e2.parent, e1, e2);
      ReachesBy(d, d[e], b, e2.parent);
      if e == e2 {
        ParentNotBelow(d, e2);
      }
    }
  }

  /**
    Moving an entry moves the whole subtree: below the new name every path resolves to what it resolved to below the
    old one.
   */
  lemma MoveSubtree(d: Dirents, root: Ino, e1: Entry, e2: Entry, to2: seq<string>, to1: seq<string>, q: seq<string>)
    requires e1 in d && e1 != e2 && Acyclic(d) && !Reaches(d, d[e1], e2.parent)
    requires Walk(d, root, to1) == Some(e1.parent) && Walk(d, root, to2) == Some(e2.parent)
    ensures Walk(Moved(d, e1, e2), root, to2 + [e2.name] + q) == Walk(d, root, to1 + [e1.name] + q)
  {
    var d', src := Moved(d, e1, e2), d[e1];
    WayAvoids(d, root, to2, e1, e2);
    WalkSame(d, d', root, to2, e1, e2);
    ParentNotBelow(d, e1);
    BelowAvoids(d, src, q, e1, e2);
    WalkSame(d, d', src, q, e1, e2);
    assert to2 + [e2.name] + q == to2 + ([e2.name] + q);
    assert to1 + [e1.name] + q == to1 + ([e1.name] + q);
    WalkAppend(d', root, to2, [e2.name] + q);
    WalkAppend(d, root, to1, [e1.name] + q);
    assert ([e2.name] + q)[1..] == q && ([e1.name] + q)[1..] == q;
  }

  /** The old name is gone, and with it every path below it. */
  lemma OldNameGone(d: Dirents, root: Ino, e1: Entry, e2: Entry, to1: seq<string>, q: seq<string>)
    requires e1 in d && e1 != e2 && Acyclic(d) && (e2 in d ==> Childless(d, d[e2]))
    requires Walk(d, root, to1) == Some(e1.parent)
    ensures Walk(Moved(d, e1, e2), root, to1 + [e1.name] + q) == None
  {
    var d' := Moved(d, e1, e2);
    if !Avoids(d, root, to1, e1, e2) {
      var b, e := LastUse(d, root, to1, e1.parent, e1, e2);
      ReachesBy(d, d[e], b, e1.parent);
      if e == e1 {
        ParentNotBelow(d, e1);
      } else {
        ChildlessWalk(d, d[e2], b);
      }
      assert false;
    }
    WalkSame(d, d', root, to1, e1, e2);
    assert to1 + [e1.name] + q == to1 + ([e1.name] + q);
    WalkAppend(d', root, to1, [e1.name] + q);
  }

  /** Every path that asks for neither name resolves as before. */
  lemma MoveElsewhere(d: Dirents, root: Ino, e1: Entry, e2: Entry, p: seq<string>)
    requires e1 in d && Avoids(d, root, p, e1, e2)
    ensures Walk(Moved(d, e1, e2), root, p) == Walk(d, root, p)
  {
    WalkSame(d, Moved(d, e1, e2), root, p, e1, e2);
  }

  /** And the result is a tree again, as long as nothing else hangs below what the new name led to. */
  lemma MoveKeepsTree(d: Dirents, root: Ino, e1: Entry, e2: Entry)
    requires e1 in d && e1 != e2 && (e2 in d ==> Childless(d - {e1}, d[e2])) && Acyclic(d) && Rooted(d, root)
    requires !Reaches(d, d[e1], e2.parent) && Reaches(d, root, e2.parent)
    ensures Acyclic(Moved(d, e1, e2)) && Rooted(Moved(d, e1, e2), root)
  {
    var d0, d', src := d - {e1} - {e2}, Moved(d, e1, e2), d[e1];
    ShrunkAcyclic(d, e1);
    ShrunkAcyclic(d - {e1}, e2);
    if Reaches(d0, src, e2.parent) {
      var p :| Walk(d0, src, p) == Some(e2.parent);
      SubWalk(d0, d, src, p, e2.parent);
      ReachesBy(d, src, p, e2.parent);
    }
    AddEdgeAcyclic(d0, e2, src);
    assert d0[e2 := src] == d';
    forall x | x in d'
      ensures Reaches(d', root, x.parent)
    {
      if e2 in d {
        ParentNotBelow(d, e2);
        ReachesBy(d, d[e2], [], d[e2]);
      }
      MoveReaches(d, root, e1, e2, x.parent);
    }
  }

  /** Moved below itself, a directory becomes part of a cycle. */
  lemma MoveCycles(d: Dirents, e1: Entry, e2: Entry)
    requires e1 in d && e1 != e2 && Acyclic(d) && Reaches(d, d[e1], e2.parent)
    ensures !Acyclic(Moved(d, e1, e2))
  {
    var d', src := Moved(d, e1, e2), d[e1];
    var p :| Walk(d, src, p) == Some(e2.parent);
    var q := p;
    if !Avoids(d, src, p, e1, e2) {
      var a, e := FirstUse(d, src, p, e1, e2);
      q := a;
      if e == e1 {
        ParentNotBelow(d, e1);
        ReachesBy(d, src, a, e1.parent);
      }
    }
    WalkSame(d, d', src, q, e1, e2);
    OneName(d', e2);
    WalkAppend(d', src, q, [e2.name]);
    assert Walk(d', src, q + [e2.name]) == Some(src);
  }

  lemma ShrunkAcyclic(d: Dirents, e: Entry)
    requires Acyclic(d)
    ensures Acyclic(d - {e})
  {
    forall i: Ino, p | p != []
      ensures Walk(d - {e}, i, p) != Some(i)
    {
      if Walk(d - {e}, i, p) == Some(i) {
        SubWalk(d - {e}, d, i, p, i);
      }
    }
  }

  lemma MoveReaches(d: Dirents, root: Ino, e1: Entry, e2: Entry, x: Ino)
    requires e1 in d && (e2 in d ==> Childless(d - {e1}, d[e2]) && x != d[e2]) && Acyclic(d) && Reaches(d, root, x)
    requires !Reaches(d, d[e1], e2.parent) && Reaches(d, root, e2.parent)
    ensures Reaches(Moved(d, e1, e2), root, x)
  {
    var d', src := Moved(d, e1, e2), d[e1];
    var p :| Walk(d, root, p) == Some(x);
    if Avoids(d, root, p, e1, e2) {
      WalkSame(d, d', root, p, e1, e2);
      ReachesBy(d', root, p, x);
    } else {
      var b, e := LastUse(d, root, p, x, e1, e2);
      if e == e2 {
        assert false;
      }
      WalkSame(d, d', src, b, e1, e2);
      ReachesBy(d', src, b, x);
      var to2 :| Walk(d, root, to2) == Some(e2.parent);
      WayAvoids(d, root, to2, e1, e2);
      WalkSame(d, d', root, to2, e1, e2);
      ReachesBy(d', root, to2, e2.parent);
      ReachesChild(d', e2);
      ReachesTrans(d', root, e2.parent, src);
      ReachesTrans(d', root, src, x);
    }
  }
}
