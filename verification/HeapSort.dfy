/** The in-place heapsort and the binary search of the C library.  Heap positions count from
    one, as in the program: position k is array element k - 1. */
module HeapSort {
  import opened Common

  /** compare returns strcmp-type results of a total preorder. */
  ghost predicate Orders<T(!new)>(compare: (T, T) -> int) {
    && (forall a, b :: (compare(a, b) < 0 <==> compare(b, a) > 0) && (compare(a, b) == 0 <==> compare(b, a) == 0))
    && (forall a, b, c :: compare(a, b) <= 0 && compare(b, c) <= 0 ==> compare(a, c) <= 0)
  }

  ghost predicate Sorted<T>(s: seq<T>, compare: (T, T) -> int) {
    forall i, j :: 0 <= i < j < |s| ==> compare(s[i], s[j]) <= 0
  }

  function Parent(k: nat): nat { k / 2 }

  /** In the first cnt positions every parent from lo on, but `hole`, is at least as large as
      its children. */
  ghost predicate Heap<T>(s: seq<T>, lo: nat, cnt: nat, hole: nat, compare: (T, T) -> int)
    requires cnt <= |s|
  {
    forall k {:trigger Parent(k)} :: 2 <= k <= cnt && lo <= Parent(k) != hole ==> Over(s, Parent(k), k, compare)
  }

  ghost predicate Over<T>(s: seq<T>, p: nat, k: nat, compare: (T, T) -> int) {
    1 <= p <= |s| && 1 <= k <= |s| && compare(s[p - 1], s[k - 1]) >= 0
  }

  /** What the parent of the hole needs: to be over the children of the hole. */
  ghost predicate Bridged<T>(s: seq<T>, lo: nat, cnt: nat, hole: nat, compare: (T, T) -> int)
    requires cnt <= |s|
  {
    lo <= Parent(hole) ==> forall k {:trigger Parent(k)} :: 2 <= k <= cnt && Parent(k) == hole ==> Over(s, Parent(hole), k, compare)
  }

  function Swapped<T>(s: seq<T>, i: nat, j: nat): (r: seq<T>)
    requires 1 <= i <= |s| && 1 <= j <= |s|
    ensures |r| == |s|
  {
    s[i - 1 := s[j - 1]][j - 1 := s[i - 1]]
  }

  lemma SwappedSame<T>(s: seq<T>, i: nat, j: nat, cnt: nat)
    requires 1 <= i <= cnt && 1 <= j <= cnt <= |s|
    ensures multiset(Swapped(s, i, j)) == multiset(s)
    ensures multiset(Swapped(s, i, j)[..cnt]) == multiset(s[..cnt])
    ensures Swapped(s, i, j)[cnt..] == s[cnt..]
  {
  }

  lemma Children(i: nat)
    ensures Parent(2 * i) == i && Parent(2 * i + 1) == i
    ensures forall k {:trigger Parent(k)} :: Parent(k) == i <==> k == 2 * i || k == 2 * i + 1
  {
  }

  /** The hole moves from i down to its largest child m. */
  lemma FloatDown<T(!new)>(s: seq<T>, lo: nat, cnt: nat, i: nat, m: nat, compare: (T, T) -> int)
    requires Orders(compare) && 1 <= lo <= i && m <= cnt <= |s| && (m == 2 * i || m == 2 * i + 1)
    requires Heap(s, lo, cnt, i, compare) && Bridged(s, lo, cnt, i, compare)
    requires compare(s[m - 1], s[i - 1]) > 0
    requires compare(s[2 * i - 1], s[m - 1]) <= 0
    requires 2 * i + 1 <= cnt ==> compare(s[2 * i], s[m - 1]) <= 0
    ensures Heap(Swapped(s, i, m), lo, cnt, m, compare) && Bridged(Swapped(s, i, m), lo, cnt, m, compare)
  {
    Children(i);
    Children(m);
    Flip(s[2 * i - 1], s[m - 1], compare);
    if 2 * i + 1 <= cnt {
      Flip(s[2 * i], s[m - 1], compare);
    }
    hide Orders, Parent;
    FloatHeap(s, lo, cnt, i, m, compare);
    FloatBridge(s, lo, cnt, i, m, compare);
  }

  lemma FloatHeap<T>(s: seq<T>, lo: nat, cnt: nat, i: nat, m: nat, compare: (T, T) -> int)
    requires 1 <= lo <= i < m <= cnt <= |s| && Parent(m) == i
    requires Heap(s, lo, cnt, i, compare) && Bridged(s, lo, cnt, i, compare)
    requires compare(s[m - 1], s[i - 1]) > 0
    requires forall k {:trigger Parent(k)} :: 2 <= k <= cnt && Parent(k) == i ==> compare(s[m - 1], s[k - 1]) >= 0
    ensures Heap(Swapped(s, i, m), lo, cnt, m, compare)
  {
  }

  lemma FloatBridge<T>(s: seq<T>, lo: nat, cnt: nat, i: nat, m: nat, compare: (T, T) -> int)
    requires 1 <= lo <= i < m <= cnt <= |s| && Parent(m) == i
    requires forall k: nat :: Parent(k) == m ==> k > m
    requires Heap(s, lo, cnt, i, compare)
    ensures Bridged(Swapped(s, i, m), lo, cnt, m, compare)
  {
  }

  lemma Flip<T(!new)>(x: T, y: T, compare: (T, T) -> int)
    requires Orders(compare)
    ensures compare(x, y) <= 0 <==> compare(y, x) >= 0
  {
  }

  /** No child is larger: there is no hole. */
  lemma AtRest<T(!new)>(s: seq<T>, lo: nat, cnt: nat, i: nat, compare: (T, T) -> int)
    requires 1 <= lo <= i <= cnt <= |s| && Heap(s, lo, cnt, i, compare) && Orders(compare)
    requires 2 * i <= cnt ==> compare(s[2 * i - 1], s[i - 1]) <= 0
    requires 2 * i + 1 <= cnt ==> compare(s[2 * i], s[i - 1]) <= 0
    ensures Heap(s, lo, cnt, 0, compare)
  {
  }

  /** The root of a heap is its maximum. */
  lemma {:induction false} RootIsMax<T(!new)>(s: seq<T>, cnt: nat, k: nat, compare: (T, T) -> int)
    requires Orders(compare) && 1 <= k <= cnt <= |s| && Heap(s, 1, cnt, 0, compare)
    ensures compare(s[k - 1], s[0]) <= 0
    decreases k
  {
    if k == 1 {
      var x := s[0];
      assert compare(x, x) == 0 || compare(x, x) < 0 || compare(x, x) > 0;
    } else {
      assert Over(s, Parent(k), k, compare);
      RootIsMax(s, cnt, Parent(k), compare);
    }
  }

  lemma NoHole<T>(s: seq<T>, i: nat, cnt: nat, compare: (T, T) -> int)
    requires 1 <= i <= cnt <= |s| && Heap(s, i + 1, cnt, 0, compare)
    ensures Heap(s, i, cnt, i, compare) && Bridged(s, i, cnt, i, compare)
  {
  }

  method Swap<T>(a: array<T>, i: nat, j: nat)
    requires 1 <= i <= a.Length && 1 <= j <= a.Length
    modifies a
    ensures a[..] == Swapped(old(a[..]), i, j)
  {
    a[i - 1], a[j - 1] := a[j - 1], a[i - 1];
  }

  /** Of position i and its children up to cnt, the largest, as the program picks it. */
  method Largest<T(!new)>(a: array<T>, i: nat, cnt: nat, compare: (T, T) -> int) returns (max: nat)
    requires Orders(compare) && 1 <= i <= cnt <= a.Length
    ensures max == i || ((max == 2 * i || max == 2 * i + 1) && max <= cnt && compare(a[max - 1], a[i - 1]) > 0)
    ensures 2 * i <= cnt ==> compare(a[2 * i - 1], a[max - 1]) <= 0
    ensures 2 * i + 1 <= cnt ==> compare(a[2 * i], a[max - 1]) <= 0
  {
    var left, right := 2 * i, 2 * i + 1;
    max := i;
    if left <= cnt && compare(a[left - 1], a[max - 1]) > 0 {
      max := left;
    }
    if right <= cnt && compare(a[right - 1], a[max - 1]) > 0 {
      max := right;
    }
  }

  /** heapify: below a position whose descendants are a heap, the element there floats down
      until that position heads a heap too. */
  method Heapify<T(!new)>(a: array<T>, start: nat, cnt: nat, compare: (T, T) -> int)
    requires Orders(compare) && 1 <= start <= cnt <= a.Length
    requires Heap(a[..], start + 1, cnt, 0, compare)
    modifies a
    ensures Heap(a[..], start, cnt, 0, compare)
    ensures multiset(a[..]) == multiset(old(a[..])) && multiset(a[..cnt]) == multiset(old(a[..cnt]))
    ensures a[cnt..] == old(a[cnt..])
  {
    var i := start;
    ghost var was := a[..];
    NoHole(was, start, cnt, compare);
    hide Orders, Heap, Bridged, Over;
    while true
      invariant start <= i <= cnt
      invariant Heap(a[..], start, cnt, i, compare) && Bridged(a[..], start, cnt, i, compare)
      invariant multiset(a[..]) == multiset(was) && multiset(a[..][..cnt]) == multiset(was[..cnt]) && a[..][cnt..] == was[cnt..]
      decreases cnt - i
    {
      var max := Largest(a, i, cnt, compare);
      ghost var s := a[..];
      if max == i {
        AtRest(s, start, cnt, i, compare);
        break;
      }
      FloatDown(s, start, cnt, i, max, compare);
      SwappedSame(s, i, max, cnt);
      Swap(a, i, max);
      i := max;
    }
    assert a[..][..cnt] == a[..cnt] && a[..][cnt..] == a[cnt..];
  }

  /** The first i elements are at most the rest, which is sorted. */
  ghost predicate Split<T>(s: seq<T>, i: nat, compare: (T, T) -> int) {
    forall p, q :: 0 <= p < q < |s| && i <= q ==> compare(s[p], s[q]) <= 0
  }

  /** Sorting the front anew keeps the split. */
  lemma SplitKeeps<T>(s: seq<T>, r: seq<T>, i: nat, compare: (T, T) -> int)
    requires i <= |s| == |r| && Split(s, i, compare)
    requires multiset(r[..i]) == multiset(s[..i]) && r[i..] == s[i..]
    ensures Split(r, i, compare)
  {
    forall p, q | 0 <= p < q < |r| && i <= q
      ensures compare(r[p], r[q]) <= 0
    {
      assert r[q] == r[i..][q - i] == s[i..][q - i] == s[q];
      if p < i {
        assert r[p] == r[..i][p] && r[..i][p] in multiset(r[..i]);
        var p' :| 0 <= p' < i && s[..i][p'] == r[p];
        assert s[p'] == r[p];
      } else {
        assert r[p] == r[i..][p - i] == s[i..][p - i] == s[p];
      }
    }
  }

  /** The root of the heap goes behind the heap. */
  lemma TakeRoot<T(!new)>(s: seq<T>, i: nat, compare: (T, T) -> int)
    requires Orders(compare) && 2 <= i <= |s| && Heap(s, 1, i, 0, compare) && Split(s, i, compare)
    ensures var r := Swapped(s, 1, i); Split(r, i - 1, compare) && Heap(r, 2, i - 1, 0, compare)
  {
    var r := Swapped(s, 1, i);
    forall p, q | 0 <= p < q < |r| && i - 1 <= q
      ensures compare(r[p], r[q]) <= 0
    {
      if q == i - 1 {
        RootIsMax(s, i, if p == 0 then i else p + 1, compare);
      }
    }
    forall k | 2 <= k <= i - 1 && 2 <= Parent(k)
      ensures Over(r, Parent(k), k, compare)
    {
      assert Over(s, Parent(k), k, compare);
    }
  }

  lemma SortBegins<T>(s: seq<T>, compare: (T, T) -> int)
    ensures Heap(s, |s| / 2 + 1, |s|, 0, compare) && Split(s, |s|, compare)
  {
  }

  lemma SortEnds<T>(s: seq<T>, i: nat, compare: (T, T) -> int)
    requires i <= 1 && Split(s, i, compare)
    ensures Sorted(s, compare)
  {
  }

  /** sort: for any total preorder the array ends sorted, with the elements it had. */
  method Sort<T(!new)>(a: array<T>, compare: (T, T) -> int)
    requires Orders(compare)
    modifies a
    ensures Sorted(a[..], compare)
    ensures multiset(a[..]) == multiset(old(a[..]))
  {
    hide Orders, Heap, Split, Sorted;
    var cnt := a.Length;
    SortBegins(a[..], compare);
    var i := cnt / 2;
    while i > 0
      invariant 0 <= i <= cnt / 2
      invariant Heap(a[..], i + 1, cnt, 0, compare)
      invariant multiset(a[..]) == multiset(old(a[..]))
    {
      Heapify(a, i, cnt, compare);
      i := i - 1;
    }
    SortBegins(a[..], compare);
    i := cnt;
    while i > 1
      invariant 0 <= i <= cnt
      invariant Heap(a[..], 1, i, 0, compare) && Split(a[..], i, compare)
      invariant multiset(a[..]) == multiset(old(a[..]))
    {
      MoveRoot(a, i, compare);
      i := i - 1;
    }
    SortEnds(a[..], i, compare);
  }

  /** One round of sorting the heap. */
  method MoveRoot<T(!new)>(a: array<T>, i: nat, compare: (T, T) -> int)
    requires Orders(compare) && 2 <= i <= a.Length
    requires Heap(a[..], 1, i, 0, compare) && Split(a[..], i, compare)
    modifies a
    ensures Heap(a[..], 1, i - 1, 0, compare) && Split(a[..], i - 1, compare)
    ensures multiset(a[..]) == multiset(old(a[..]))
  {
    hide Orders, Heap, Split;
    TakeRoot(a[..], i, compare);
    SwappedSame(a[..], 1, i, a.Length);
    Swap(a, 1, i);
    ghost var t := a[..];
    assert t[..i - 1] == a[..i - 1] && t[i - 1..] == a[i - 1..];
    Heapify(a, 1, i - 1, compare);
    assert a[..][..i - 1] == a[..i - 1] && a[..][i - 1..] == a[i - 1..];
    SplitKeeps(t, a[..], i - 1, compare);
  }

  /** binary_search: finds a match if there is one, and only then. */
  method BinarySearch<T(!new)>(key: T, a: array<T>, compare: (T, T) -> int) returns (r: Option<nat>)
    requires Orders(compare) && Sorted(a[..], compare)
    ensures r.Some? ==> r.value < a.Length && compare(key, a[r.value]) == 0
    ensures r.None? ==> forall k :: 0 <= k < a.Length ==> compare(key, a[k]) != 0
  {
    var first, last := 0, a.Length;
    while first < last
      invariant 0 <= first <= last <= a.Length
      invariant forall k :: 0 <= k < first ==> compare(key, a[k]) > 0
      invariant forall k :: last <= k < a.Length ==> compare(key, a[k]) < 0
    {
      var range := last - first;
      var middle := first + range / 2;
      var cmp := compare(key, a[middle]);
      if cmp < 0 {
        Beyond(key, a[..], middle, compare);
        last := middle;
      } else if cmp > 0 {
        Below(key, a[..], middle, compare);
        first := middle + 1;
      } else {
        return Some(middle);
      }
    }
    return None;
  }

  lemma Beyond<T(!new)>(key: T, s: seq<T>, m: nat, compare: (T, T) -> int)
    requires Orders(compare) && Sorted(s, compare) && m < |s| && compare(key, s[m]) < 0
    ensures forall k :: m <= k < |s| ==> compare(key, s[k]) < 0
  {
  }

  lemma Below<T(!new)>(key: T, s: seq<T>, m: nat, compare: (T, T) -> int)
    requires Orders(compare) && Sorted(s, compare) && m < |s| && compare(key, s[m]) > 0
    ensures forall k :: 0 <= k <= m ==> compare(key, s[k]) > 0
  {
  }
}
