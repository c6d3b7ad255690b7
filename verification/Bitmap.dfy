/** Bitmaps as vectors of booleans, with the first-fit search that the page allocator and
    the free map of the file system use. */
module Bitmap {
  import opened Common

  /** bitmap_all and, for false, bitmap_none: bits i to i + cnt lie in the map and are v. */
  predicate AllAre(bits: seq<bool>, i: nat, cnt: nat, v: bool) {
    i + cnt <= |bits| && forall k :: i <= k < i + cnt ==> bits[k] == v
  }

  /** bitmap_set_multiple. */
  function SetRange(bits: seq<bool>, i: nat, cnt: nat, v: bool): (r: seq<bool>)
    requires i + cnt <= |bits|
    ensures |r| == |bits|
    ensures forall k :: 0 <= k < |bits| ==> r[k] == if i <= k < i + cnt then v else bits[k]
  {
    seq(|bits|, k requires 0 <= k < |bits| => if i <= k < i + cnt then v else bits[k])
  }

  /** The first group of cnt clear bits at or after i. */
  function Scan(bits: seq<bool>, i: nat, cnt: nat): (r: Option<nat>)
    ensures r.Some? ==> i <= r.value && AllAre(bits, r.value, cnt, false)
    ensures forall j :: i <= j && (r.None? || j < r.value) ==> !AllAre(bits, j, cnt, false)
    decreases |bits| - i
  {
    if i + cnt > |bits| then None
    else if AllAre(bits, i, cnt, false) then Some(i)
    else Scan(bits, i + 1, cnt)
  }

  /** bitmap_scan for clear bits from the start of the map. */
  method FindClear(bits: seq<bool>, cnt: nat) returns (r: Option<nat>)
    ensures r == Scan(bits, 0, cnt)
  {
    if cnt <= |bits| {
      var last := |bits| - cnt;
      var i := 0;
      while i <= last
        invariant 0 <= i <= last + 1
        invariant Scan(bits, i, cnt) == Scan(bits, 0, cnt)
      {
        if AllAre(bits, i, cnt, false) {
          return Some(i);
        }
        i := i + 1;
      }
    }
    return None;
  }

  // ---------- groups handed out of a map ----------

  /** Bit i belongs to the group that starts at p. */
  predicate Covers(groups: map<nat, nat>, p: nat, i: int) {
    p in groups && p <= i < p + groups[p]
  }

  /** The groups, from first bit to length, are not empty, lie in the map, overlap nowhere
      and make up exactly the set bits. */
  ghost predicate Tiled(bits: seq<bool>, groups: map<nat, nat>) {
    && (forall p :: p in groups ==> groups[p] >= 1 && p + groups[p] <= |bits|)
    && (forall p, q :: p in groups && q in groups && p < q ==> p + groups[p] <= q)
    && (forall i :: 0 <= i < |bits| ==> (bits[i] <==> exists p :: Covers(groups, p, i)))
  }

  /** Every group is apart from clear bits. */
  lemma Apart(bits: seq<bool>, groups: map<nat, nat>, p: nat, cnt: nat, q: nat)
    requires Tiled(bits, groups) && cnt >= 1 && AllAre(bits, p, cnt, false) && q in groups
    ensures q + groups[q] <= p || p + cnt <= q
  {
    var i := if p < q then q else p;
    assert Covers(groups, q, i) ==> i < |bits| && bits[i];
  }

  /** Taking a clear group makes it one more group. */
  lemma TakeTiles(bits: seq<bool>, groups: map<nat, nat>, p: nat, cnt: nat)
    requires Tiled(bits, groups) && cnt >= 1 && AllAre(bits, p, cnt, false)
    ensures p !in groups
    ensures Tiled(SetRange(bits, p, cnt, true), groups[p := cnt])
  {
    var r, g := SetRange(bits, p, cnt, true), groups[p := cnt];
    forall q | q in groups
      ensures q + groups[q] <= p || p + cnt <= q
    {
      Apart(bits, groups, p, cnt, q);
    }
    forall i | 0 <= i < |r|
      ensures r[i] <==> exists q :: Covers(g, q, i)
    {
      if p <= i < p + cnt {
        assert Covers(g, p, i);
      } else if bits[i] {
        var q :| Covers(groups, q, i);
        assert Covers(g, q, i);
      } else if q :| Covers(g, q, i) {
        assert q != p && Covers(groups, q, i);
      }
    }
  }

  /** Releasing a group leaves the others; all its bits were set before. */
  lemma ReleaseTiles(bits: seq<bool>, groups: map<nat, nat>, p: nat)
    requires Tiled(bits, groups) && p in groups
    ensures AllAre(bits, p, groups[p], true)
    ensures Tiled(SetRange(bits, p, groups[p], false), groups - {p})
  {
    var cnt := groups[p];
    var r, g := SetRange(bits, p, cnt, false), groups - {p};
    forall i | 0 <= i < |r|
      ensures p <= i < p + cnt ==> bits[i]
      ensures r[i] <==> exists q :: Covers(g, q, i)
    {
      if p <= i < p + cnt {
        assert Covers(groups, p, i);
        forall q ensures !Covers(g, q, i) {
        }
      } else if bits[i] {
        var q :| Covers(groups, q, i);
        assert Covers(g, q, i);
      } else if q :| Covers(g, q, i) {
        assert Covers(groups, q, i);
      }
    }
  }

  /** When every group is released the map is clear. */
  lemma NothingTiles(bits: seq<bool>)
    requires Tiled(bits, map[])
    ensures AllAre(bits, 0, |bits|, false)
  {
  }
}
