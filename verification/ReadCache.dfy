/** The bounded read cache: least recently used blobs go first. */
module ReadCache {
  import opened Bytes
  import opened Blobs

  /** What read_cached and get_range are asked for: the whole blob, or bytes [lo, hi). */
  datatype Span = Whole | Part(lo: nat, hi: int)

  function Cut(data: Data, span: Span): Data {
    match span
    case Whole => data
    case Part(lo, hi) => Slice(data, lo, hi)
  }

  /** No entry twice; folded, see Bytes.Look. */
  ghost predicate Distinct(s: seq<Sha>) {
    forall k: nat {:trigger Look(Layout, k)} :: Look(Layout, k) ==> forall i, j :: 0 <= i < j < |s| ==> s[i] != s[j]
  }

  /** Without the entry x, if there is one. */
  function Without(s: seq<Sha>, x: Sha): seq<Sha>
    requires Distinct(s)
  {
    assert Look(Layout, 0);
    if x in s then
      var i :| 0 <= i < |s| && s[i] == x;
      s[..i] + s[i + 1..]
    else s
  }

  lemma WithoutAt(s: seq<Sha>, x: Sha, i: nat)
    requires Distinct(s) && i < |s| && s[i] == x
    ensures Without(s, x) == s[..i] + s[i + 1..]
  {
    assert Look(Layout, 0);
    var j :| 0 <= j < |s| && s[j] == x && Without(s, x) == s[..j] + s[j + 1..];
    assert j == i;
  }

  /** move_to_end, or a new entry at the end. */
  function Touch(s: seq<Sha>, x: Sha): seq<Sha>
    requires Distinct(s)
  {
    Without(s, x) + [x]
  }

  lemma WithoutIs(s: seq<Sha>, x: Sha)
    requires Distinct(s)
    ensures Distinct(Without(s, x)) && (forall y :: y in Without(s, x) <==> y in s && y != x)
  {
    if x in s {
      var i :| 0 <= i < |s| && s[i] == x;
      WithoutAt(s, x, i);
      CutDistinct(s, s[..i] + s[i + 1..], i);
      forall y
        ensures y in Without(s, x) <==> y in s && y != x
      {
        CutHas(s, s[..i] + s[i + 1..], i, y);
      }
    }
  }

  lemma CutDistinct(s: seq<Sha>, r: seq<Sha>, i: nat)
    requires Distinct(s) && i < |s| && r == s[..i] + s[i + 1..]
    ensures Distinct(r)
  {
    assert Look(Layout, 0);
    assert forall k :: 0 <= k < |r| ==> r[k] == s[if k < i then k else k + 1];
  }

  lemma CutHas(s: seq<Sha>, r: seq<Sha>, i: nat, y: Sha)
    requires Distinct(s) && i < |s| && r == s[..i] + s[i + 1..]
    ensures y in r <==> y in s && y != s[i]
  {
    assert Look(Layout, 0);
    if y in r {
      var k :| 0 <= k < |r| && r[k] == y;
      assert r[k] == s[if k < i then k else k + 1];
    }
    if y in s && y != s[i] {
      var k :| 0 <= k < |s| && s[k] == y;
      assert r[if k < i then k else k - 1] == y;
    }
  }

  lemma AppendDistinct(s: seq<Sha>, x: Sha)
    requires Distinct(s) && x !in s
    ensures Distinct(s + [x])
  {
    assert Look(Layout, 0);
  }

  lemma TouchIs(s: seq<Sha>, x: Sha)
    requires Distinct(s)
    ensures Distinct(Touch(s, x)) && (forall y :: y in Touch(s, x) <==> y in s || y == x)
  {
    WithoutIs(s, x);
    AppendDistinct(Without(s, x), x);
  }

  /** Bytes held by the blobs of a list. */
  function Total(s: seq<Sha>): nat {
    if s == [] then 0 else |Pre(s[0])| + Total(s[1..])
  }

  lemma {:induction false} TotalConcat(a: seq<Sha>, b: seq<Sha>)
    ensures Total(a + b) == Total(a) + Total(b)
    decreases |a|
  {
    if a == [] {
      assert a + b == b;
    } else {
      assert (a + b)[0] == a[0] && (a + b)[1..] == a[1..] + b;
      TotalConcat(a[1..], b);
    }
  }

  lemma TotalOne(x: Sha)
    ensures Total([x]) == |Pre(x)|
  {
  }

  lemma TotalWithout(s: seq<Sha>, x: Sha)
    requires Distinct(s)
    ensures Total(Without(s, x)) == Total(s) - if x in s then |Pre(x)| else 0
  {
    if x in s {
      var i :| 0 <= i < |s| && s[i] == x;
      WithoutAt(s, x, i);
      assert s == s[..i] + ([x] + s[i + 1..]);
      TotalConcat(s[..i], [x] + s[i + 1..]);
      TotalConcat([x], s[i + 1..]);
      TotalConcat(s[..i], s[i + 1..]);
      TotalOne(x);
    }
  }

  // ----- least recently used ---------------------------------------------------------------

  /** The last n entries. */
  function Last(s: seq<Sha>, n: nat): seq<Sha>
    requires n <= |s|
  {
    s[|s| - n..]
  }

  /** Read from its end, `s` begins with what `t` begins with: `t` is the most recent part of `s`. */
  predicate Newest(t: seq<Sha>, s: seq<Sha>) {
    |t| <= |s| && Last(s, |t|) == t
  }

  lemma WithoutTouch(s: seq<Sha>, x: Sha)
    requires Distinct(s)
    ensures Distinct(Touch(s, x)) && Without(Touch(s, x), x) == Without(s, x)
  {
    TouchIs(s, x);
    WithoutAt(Touch(s, x), x, |Without(s, x)|);
  }

  lemma TotalTouch(s: seq<Sha>, x: Sha)
    requires Distinct(s)
    ensures Total(Touch(s, x)) == Total(s) + if x in s then 0 else |Pre(x)|
  {
    TotalWithout(s, x);
    TotalConcat(Without(s, x), [x]);
    TotalOne(x);
  }

  /** Dropping the oldest entry keeps it so. */
  lemma NewestRest(t: seq<Sha>, s: seq<Sha>)
    requires Newest(t, s) && t != []
    ensures Newest(t[1..], s)
  {
    assert forall i :: 0 <= i < |t| ==> t[i] == s[|s| - |t| + i];
  }

  lemma TotalRest(s: seq<Sha>)
    requires s != []
    ensures Total(s[1..]) == Total(s) - |Pre(s[0])|
  {
  }

  lemma DistinctRest(s: seq<Sha>)
    requires Distinct(s) && s != []
    ensures Distinct(s[1..]) && forall y :: y in s[1..] <==> y in s && y != s[0]
  {
    assert Look(Layout, 0);
    assert s == [s[0]] + s[1..];
  }

  /** The same access on both keeps it so, whether or not the cache had the blob. */
  lemma TouchNewest(t: seq<Sha>, s: seq<Sha>, x: Sha)
    requires Newest(t, s) && Distinct(s) && Distinct(t)
    ensures Newest(Touch(t, x), Touch(s, x))
  {
    var n := |s| - |t|;
    assert s == s[..n] + t;
    if x in t {
      var i :| 0 <= i < |t| && t[i] == x;
      WithoutAt(t, x, i);
      WithoutAt(s, x, n + i);
      SuffixCut(s[..n], t, i, x);
    } else {
      if x in s {
        var i :| 0 <= i < |s| && s[i] == x;
        NotInSuffix(s, t, n, i);
        WithoutAt(s, x, i);
        SuffixKept(s, t, n, i, x);
      } else {
        assert Last(s + [x], |t| + 1) == t + [x];
      }
    }
  }

  lemma NotInSuffix(s: seq<Sha>, t: seq<Sha>, n: nat, i: nat)
    requires n <= |s| && t == s[n..] && i < |s| && s[i] !in t
    ensures i < n
  {
    assert forall k :: n <= k < |s| ==> s[k] == t[k - n] && s[k] in t;
  }

  lemma SuffixCut(a: seq<Sha>, t: seq<Sha>, i: nat, x: Sha)
    requires i < |t|
    ensures var s := a + t;
            Newest(t[..i] + t[i + 1..] + [x], s[..|a| + i] + s[|a| + i + 1..] + [x])
  {
    var s := a + t;
    assert s[..|a| + i] == a + t[..i] && s[|a| + i + 1..] == t[i + 1..];
    assert s[..|a| + i] + s[|a| + i + 1..] + [x] == a + (t[..i] + t[i + 1..] + [x]);
  }

  lemma SuffixKept(s: seq<Sha>, t: seq<Sha>, n: nat, i: nat, x: Sha)
    requires i < n <= |s| && t == s[n..]
    ensures Newest(t + [x], s[..i] + s[i + 1..] + [x])
  {
    assert s[..i] + s[i + 1..] + [x] == (s[..i] + s[i + 1..n]) + (t + [x]);
  }

  /** What eviction leaves of a list, oldest first. */
  function Kept(s: seq<Sha>, cap: int): seq<Sha> {
    if Total(s) > cap && |s| > 1 then Kept(s[1..], cap) else s
  }

  lemma LastOfRest(s: seq<Sha>, rest: seq<Sha>, n: nat)
    requires s != [] && rest == s[1..] && n <= |rest|
    ensures Last(rest, n) == Last(s, n)
  {
  }

  /** The most recent entries that fit, as many of them as possible, and at any rate the last one. */
  lemma {:induction false} KeptIs(s: seq<Sha>, cap: int, kept: seq<Sha>)
    requires kept == Kept(s, cap)
    ensures Newest(kept, s) && (Total(kept) <= cap || |kept| <= 1)
    ensures s != [] ==> kept != [] && kept[|kept| - 1] == s[|s| - 1]
    ensures forall n :: |kept| < n <= |s| ==> Total(Last(s, n)) > cap
  {
    assert Last(s, |s|) == s;
    if Total(s) > cap && |s| > 1 {
      var rest := s[1..];
      KeptIs(rest, cap, kept);
      LastOfRest(s, rest, |kept|);
      forall n | |kept| < n <= |s|
        ensures Total(Last(s, n)) > cap
      {
        if n < |s| {
          LastOfRest(s, rest, n);
        }
      }
    }
  }

  // ----- the cache -------------------------------------------------------------------------

  class ReadCache {
    const cap: int
    var order: seq<Sha>       // the index, least recently used first ...
    var sizes: map<Sha, nat>  // ... and the size of each entry
    var total: int
    var files: map<Sha, Data>
    ghost var recent: seq<Sha>  // every blob ever accessed, in the order of its last access

    /** The accounting is exact and an indexed file holds the blob it is named after. */
    ghost predicate Valid()
      reads this
    {
      && Distinct(order) && Distinct(recent) && (forall s :: s in order <==> s in sizes)
      && total == Total(order)
      && (forall s :: s in sizes ==> s in files && files[s] == Pre(s) && sizes[s] == |Pre(s)|)
    }

    /** The index holds the most recently accessed blobs, in order of access. */
    ghost predicate Lru()
      reads this
    {
      Newest(order, recent)
    }

    /** Takes over the files of an earlier run, oldest first. */
    constructor (cap: int, found: seq<Sha>, files: map<Sha, Data>)
      requires Distinct(found) && forall s :: s in found ==> s in files && files[s] == Pre(s)
      ensures Valid() && Lru() && this.cap == cap && order == found
    {
      this.cap, this.files, order, recent := cap, files, found, found;
      sizes := map s | s in found :: |files[s]|;
      total := Total(found);
    }

    /** A hit makes the blob the most recent one. The file may turn out to be gone: then its entry goes too. */
    method ReadCached(sha: Sha, span: Span, gone: bool) returns (r: Option<Data>)
      requires Valid()
      modifies this`order, this`sizes, this`total, this`recent
      ensures Valid()
      ensures r == if sha in old(sizes) && !gone then Some(Cut(Pre(sha), span)) else None
      ensures sha !in old(sizes) ==> unchanged(this)
      ensures sha in old(sizes) && !gone ==> order == Touch(old(order), sha) && recent == Touch(old(recent), sha)
      ensures sha in old(sizes) && gone ==> order == Without(old(order), sha)
      ensures old(Lru()) && !gone ==> Lru()
    {
      if sha !in sizes {
        return None;
      }
      WithoutTouch(order, sha);
      MoveToEnd(sha);
      if gone {
        Forget(sha);
        return None;
      }
      r := Some(Cut(files[sha], span));
    }

    method MoveToEnd(sha: Sha)
      requires Valid() && sha in sizes
      modifies this`order, this`recent
      ensures Valid() && order == Touch(old(order), sha) && recent == Touch(old(recent), sha)
      ensures old(Lru()) ==> Lru()
    {
      Accessed(sha);
      assert sha in order;
      var moved := Touch(order, sha);
      ghost var seen := Touch(recent, sha);
      assert Distinct(moved) && Distinct(seen) && total == Total(moved) && forall s :: s in moved <==> s in sizes;
      order, recent := moved, seen;
    }

    /** An access: the lists it leads to are lists again, with the blob in them, and stay in step. */
    lemma Accessed(sha: Sha)
      requires Valid()
      ensures Distinct(Touch(order, sha)) && Distinct(Touch(recent, sha))
      ensures forall s :: s in Touch(order, sha) <==> s in sizes || s == sha
      ensures Total(Touch(order, sha)) == total + if sha in sizes then 0 else |Pre(sha)|
      ensures Lru() ==> Newest(Touch(order, sha), Touch(recent, sha))
    {
      TouchIs(order, sha);
      TouchIs(recent, sha);
      TotalTouch(order, sha);
      if Lru() {
        TouchNewest(order, recent, sha);
      }
    }

    /** Drops the entry of a file that is gone. */
    method Forget(sha: Sha)
      requires Valid() && sha in sizes
      modifies this`order, this`sizes, this`total
      ensures Valid() && order == Without(old(order), sha)
    {
      WithoutIs(order, sha);
      TotalWithout(order, sha);
      total := total - sizes[sha];
      order, sizes := Without(order, sha), sizes - {sha};
    }

    /** A new entry, the most recent one. */
    method Add(sha: Sha, data: Data)
      requires Valid() && sha !in sizes && sha == Hash(data)
      modifies this`order, this`sizes, this`total, this`files, this`recent
      ensures Valid() && order == Touch(old(order), sha) && recent == Touch(old(recent), sha)
      ensures old(Lru()) ==> Lru()
    {
      Accessed(sha);
      assert sha !in order;
      var added := order + [sha];
      ghost var seen := Touch(recent, sha);
      assert added == Touch(order, sha);
      files, sizes := files[sha := data], sizes[sha := |data|];
      order, total, recent := added, total + |data|, seen;
    }

    /** Drops the least recently used entries until the rest fits or is a single one. */
    method Evict()
      requires Valid()
      modifies this`order, this`sizes, this`total, this`files
      ensures Valid() && order == Kept(old(order), cap)
      ensures old(Lru()) ==> Lru()
    {
      while total > cap && |order| > 1
        invariant Valid() && Kept(order, cap) == Kept(old(order), cap)
        invariant old(Lru()) ==> Lru()
        decreases |order|
      {
        var oldest := order[0];
        DistinctRest(order);
        TotalRest(order);
        if old(Lru()) {
          NewestRest(order, recent);
        }
        files := files - {oldest};
        total := total - sizes[oldest];
        order, sizes := order[1..], sizes - {oldest};
      }
    }

    /**
      Adds a downloaded blob, or makes it the most recent one. Afterwards the cache holds as many of the most recent
      blobs as fit, this one at any rate. Nothing happens if the file cannot be written.
     */
    method Store(sha: Sha, data: Data, written: bool)
      requires Valid() && sha == Hash(data)
      modifies this`order, this`sizes, this`total, this`files, this`recent
      ensures Valid()
      ensures sha !in old(sizes) && !written ==> unchanged(this)
      ensures sha in old(sizes) || written ==>
                && order == Kept(Touch(old(order), sha), cap) && recent == Touch(old(recent), sha)
                && (total <= cap || |order| == 1) && order != [] && order[|order| - 1] == sha
      ensures old(Lru()) ==> Lru()
    {
      KeptIs(Touch(order, sha), cap, Kept(Touch(order, sha), cap));
      if sha in sizes {
        MoveToEnd(sha);
      } else if written {
        Add(sha, data);
      } else {
        return;
      }
      Evict();
    }

    /**
      With no other thread around: a hit, or a download that is stored. `loaded` is what the loader yields, None when it
      raises; the cache is transparent either way.
     */
    method GetRange(sha: Sha, span: Span, loaded: Option<Data>, gone: bool, written: bool) returns (r: Option<Data>)
      requires Valid() && (loaded.Some? ==> sha == Hash(loaded.value))
      modifies this`order, this`sizes, this`total, this`files, this`recent
      ensures Valid() && (old(Lru()) && !gone ==> Lru())
      ensures r == if (sha in old(sizes) && !gone) || loaded.Some? then Some(Cut(Pre(sha), span)) else None
    {
      r := ReadCached(sha, span, gone);
      if r == None && loaded.Some? {
        Store(sha, loaded.value, written);
        r := Some(Cut(loaded.value, span));
      }
    }
  }
}
