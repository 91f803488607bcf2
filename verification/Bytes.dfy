/** Byte strings, sparse files and the arithmetic of fixed-size chunks. */
module Bytes {
  type Byte = bv8
  type Data = seq<Byte>

  /** An inode number. */
  type Ino = nat

  datatype Option<+T> = None | Some(value: T)

  function Min(a: int, b: int): int {
    if a < b then a else b
  }

  function Max(a: int, b: int): int {
    if a < b then b else a
  }

  function Zeros(n: nat): (z: Data)
    ensures |z| == n && forall p :: 0 <= p < n ==> z[p] == 0
  {
    seq(n, _ => 0)
  }

  /** Byte p of a file that reads as zero past its end. */
  function At(f: Data, p: int): Byte {
    if 0 <= p < |f| then f[p] else 0
  }

  /** ftruncate: cut, or extend with zeros. */
  function Resize(f: Data, n: nat): (g: Data)
    ensures |g| == n
    ensures forall p :: 0 <= p ==> At(g, p) == if p < n then At(f, p) else 0
  {
    if n <= |f| then f[..n] else f + Zeros(n - |f|)
  }

  /** seek(off); write(data): nothing happens for no data, otherwise a hole before off reads as zeros. */
  function WriteAt(f: Data, off: nat, data: Data): (g: Data)
    ensures |g| == if data == [] then |f| else Max(|f|, off + |data|)
    ensures forall p :: 0 <= p ==> At(g, p) == if off <= p < off + |data| then data[p - off] else At(f, p)
  {
    if data == [] then f
    else
      var h := if |f| < off then Resize(f, off) else f;
      var g := h[..off] + data + h[Min(off + |data|, |h|)..];
      assert forall p :: 0 <= p ==> At(h, p) == At(f, p);
      g
  }

  /** seek(off); read(n): at most n bytes, fewer at the end of the file. */
  function ReadAt(f: Data, off: nat, n: nat): (g: Data)
    ensures |g| == Max(0, Min(n, |f| - off))
    ensures forall k :: 0 <= k < |g| ==> g[k] == At(f, off + k)
  {
    if off >= |f| then [] else f[off..Min(off + n, |f|)]
  }

  /** bytes[lo : hi] of a Python byte string, for 0 <= lo. */
  function Slice(f: Data, lo: nat, hi: int): Data {
    if lo < Min(hi, |f|) then f[lo..Min(hi, |f|)] else []
  }

  datatype Topic = Layout | Coherence | Backing | Accounts | Totals | Conduct

  /**
    Predicates guarded by Look stay folded, as atoms, in proofs that do not mention their topic;
    `assert Look(Layout, 0);` unfolds those about Layout. Look itself holds always.
   */
  predicate Look(topic: Topic, k: nat) {
    true
  }

  // ----- the plain byte array a file is meant to be ---------------------------------------

  /** A write: the array grows with zeros to reach the data, then the data replaces what was there. */
  function Overwrite(v: Data, off: nat, data: Data): (w: Data)
    ensures |w| == Max(|v|, off + |data|)
    ensures forall p :: 0 <= p < |w| ==> w[p] == if off <= p < off + |data| then data[p - off] else At(v, p)
  {
    var w := WriteAt(Resize(v, Max(|v|, off + |data|)), off, data);
    assert forall p :: 0 <= p < |w| ==> w[p] == At(w, p);
    w
  }

  lemma SameBytes(f: Data, g: Data)
    requires |f| == |g|
    requires forall p :: 0 <= p < |f| ==> f[p] == g[p]
    ensures f == g
  {
  }

  // ----- chunk arithmetic ------------------------------------------------------------------

  /** First byte of chunk i. */
  function Off(i: nat, cs: nat): (o: nat) {
    MulGap(i, cs);
    i * cs
  }

  /** The chunk that byte p lies in. */
  function Idx(p: nat, cs: nat): (i: nat)
    requires cs > 0
    ensures Off(i, cs) <= p < Off(i, cs) + cs
  {
    p / cs
  }

  /** How many chunks of cs bytes it takes to hold n bytes: the ceiling -(-n // cs). */
  function Chunks(n: nat, cs: nat): (k: nat)
    requires cs > 0
    ensures n <= Off(k, cs)
    ensures k > 0 ==> Off(k - 1, cs) < n
  {
    if n == 0 then 0 else
      OffShift(Idx(n - 1, cs), cs);
      Idx(n - 1, cs) + 1
  }

  lemma MulGap(d: int, cs: nat)
    ensures d >= 0 ==> d * cs >= 0
    ensures d >= 1 ==> d * cs >= cs
    ensures d <= -1 ==> d * cs + cs <= 0
  {
    if d >= 1 {
      assert d * cs == cs + (d - 1) * cs;
    } else if d <= -1 {
      assert d * cs + cs == (d + 1) * cs;
    }
  }

  lemma OffShift(i: nat, cs: nat)
    ensures Off(i + 1, cs) == Off(i, cs) + cs
  {
  }

  lemma OffGap(i: nat, j: nat, cs: nat)
    requires i < j
    ensures Off(i, cs) + cs <= Off(j, cs)
  {
    assert (j - i) * cs == j * cs - i * cs;
    MulGap(j - i, cs);
  }

  lemma IdxIs(p: nat, cs: nat, i: nat)
    requires cs > 0 && Off(i, cs) <= p < Off(i, cs) + cs
    ensures Idx(p, cs) == i
  {
    var q := Idx(p, cs);
    if q < i {
      OffGap(q, i, cs);
    } else if i < q {
      OffGap(i, q, cs);
    }
  }

  lemma ChunksIs(n: nat, cs: nat, k: nat)
    requires cs > 0 && n <= Off(k, cs) && (k > 0 ==> Off(k - 1, cs) < n)
    ensures Chunks(n, cs) == k
  {
    if k > 0 {
      OffShift(k - 1, cs);
      IdxIs(n - 1, cs, k - 1);
    }
  }

  /** A byte inside the file lies in one of its chunks. */
  lemma IdxBelow(p: nat, n: nat, cs: nat)
    requires cs > 0 && p < n
    ensures Idx(p, cs) < Chunks(n, cs)
  {
    var i, k := Idx(p, cs), Chunks(n, cs);
    if k < i {
      OffGap(k, i, cs);
    }
  }

  /** The code's -(-n // cs) in Euclidean terms. */
  lemma CeilIs(n: nat, cs: nat)
    requires cs > 0
    ensures (n + cs - 1) / cs == Chunks(n, cs)
  {
    var k := Chunks(n, cs);
    if k > 0 {
      OffShift(k - 1, cs);
    }
    IdxIs(n + cs - 1, cs, k);
  }
}
