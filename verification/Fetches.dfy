/** Which base chunks the steps on a write-mode state download. */
module Fetches {
  import opened Bytes
  import opened Blobs
  import opened SparseFile
  import opened FlushFile

  /** `need` lists, in order, exactly the indexes in [lo, hi) to be pulled in. */
  ghost predicate NeedList(c: Core, lo: nat, hi: nat, skip: set<nat>, need: seq<nat>) {
    && (forall k :: 0 <= k < |need| ==> lo <= need[k] < hi && Needed(c, need[k], skip))
    && (forall j, k :: 0 <= j < k < |need| ==> need[j] < need[k])
    && (forall i :: lo <= i < hi && Needed(c, i, skip) ==> i in need)
  }

  /** Base chunks that loading a range downloads. */
  ghost function Fetch(c: Core, lo: nat, hi: nat, skip: set<nat>): set<nat> {
    set i | i in Range(lo, hi) && Needed(c, i, skip)
  }

  /** The list of indexes the loading method works off is that set, each index once. */
  lemma FetchIsNeed(c: Core, lo: nat, hi: nat, skip: set<nat>, need: seq<nat>)
    requires NeedList(c, lo, hi, skip, need)
    ensures Fetch(c, lo, hi, skip) == set i | i in need
    ensures forall j, k :: 0 <= j < k < |need| ==> need[j] != need[k]
  {
    forall i
      ensures i in Fetch(c, lo, hi, skip) <==> i in need
    {
      if i in need {
        var k :| 0 <= k < |need| && need[k] == i;
        assert lo <= need[k] < hi;
      }
    }
  }

  // ----- what each step downloads ----------------------------------------------------------

  ghost function PrepareFetch(c: Core, cs: nat, start: nat, end: nat, overwrite: bool): set<nat>
    requires cs > 0
  {
    var end' := Min(end, c.size);
    if end' <= start || c.base == [] then {}
    else
      var lo, hi := Idx(start, cs), Idx(end' - 1, cs) + 1;
      var skip := if overwrite then Covered(c.base, lo, hi, start, end') else {};
      Fetch(c.(loaded := c.loaded + skip), lo, hi, skip)
  }

  ghost function GrowFetch(c: Core, cs: nat, newSize: nat): set<nat>
    requires cs > 0
  {
    if newSize <= c.size || !PartialTail(c, cs) then {} else Fetch(c, |c.base| - 1, |c.base|, {})
  }

  ghost function CutFetch(c: Core, cs: nat, length: nat): set<nat>
    requires cs > 0
  {
    var b := Idx(length, cs);
    if length % cs != 0 && b < |c.base| then Fetch(c, b, b + 1, {}) else {}
  }

  ghost function WriteFetch(c: Core, cs: nat, start: nat, end: nat): set<nat>
    requires cs > 0
  {
    PrepareFetch(c, cs, start, end, true) + GrowFetch(Prepare(c, cs, start, end, true), cs, end)
  }

  ghost function TruncateFetch(c: Core, cs: nat, length: nat): set<nat>
    requires cs > 0
  {
    if length < c.size then CutFetch(c, cs, length) else GrowFetch(c, cs, length)
  }

  /** Stored chunks that entering write mode downloads: none, or all that are stored in another layout. */
  ghost function EnterFetch(rows: seq<Row>, cs: nat): set<nat> {
    if LooksAligned(rows, cs) then {} else Range(0, |rows|)
  }

  /** Loading a whole list over an empty temp file downloads all of it. */
  lemma EnterFetchIs(rows: seq<Row>, size: nat)
    ensures Fetch(Core(size, rows, {}, {}, []), 0, |rows|, {}) == Range(0, |rows|)
  {
  }

  /** A range past the base list needs nothing more. */
  lemma FetchBeyond(c: Core, lo: nat, hi: nat, skip: set<nat>)
    ensures Fetch(c, lo, Min(hi, |c.base|), skip) == Fetch(c, lo, hi, skip)
  {
  }
}
