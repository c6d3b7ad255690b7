/** Loading the segments of an executable into the user pages of a process. */
module ElfLoad {
  import opened Common
  import opened Pte
  import opened PageDir

  const WORD := 0x1_0000_0000
  const PHYS_BASE := 0xC000_0000
  const INT_MAX := 0x7fff_ffff

  /** A user address space: its page directory, the contents of its pages, and the free pages
      of the two pools of the page allocator. */
  datatype Space = Space(dir: Dir, mem: map<Frame, seq<Byte>>, userPool: seq<Frame>, tablePool: seq<Frame>)

  ghost predicate PoolOk(pool: seq<Frame>) {
    && (forall i :: 0 <= i < |pool| ==> Aligned(pool[i]))
    && (forall i, j :: 0 <= i < j < |pool| ==> pool[i] != pool[j])
  }

  ghost predicate Holds(d: Dir, mem: map<Frame, seq<Byte>>, v: Page)
    requires Wf(d)
  {
    View(d, v).Some? ==> View(d, v).value.frame in mem && |mem[View(d, v).value.frame]| == PGSIZE
  }

  /** Every mapped page has a frame of its own with contents; free frames are in no use. */
  ghost predicate SpaceOk(s: Space) {
    Wf(s.dir) && FramesOk(s)
  }

  ghost predicate FramesOk(s: Space)
    requires Wf(s.dir)
  {
    && PoolOk(s.userPool) && PoolOk(s.tablePool)
    && (forall v: Page :: Holds(s.dir, s.mem, v))
    && (forall u: Page, v: Page :: u != v && View(s.dir, u).Some? && View(s.dir, v).Some? ==>
        View(s.dir, u).value.frame != View(s.dir, v).value.frame)
    && (forall i :: 0 <= i < |s.userPool| ==> s.userPool[i] !in s.mem)
    && (forall i :: 0 <= i < |s.tablePool| ==> s.tablePool[i] !in s.dir.tables)
  }

  /** The contents of page v. */
  function PageBytes(s: Space, v: Page): Option<seq<Byte>>
    requires SpaceOk(s)
  {
    assert Holds(s.dir, s.mem, v);
    if View(s.dir, v).None? then None else Some(s.mem[View(s.dir, v).value.frame])
  }

  /** The byte at a user address. */
  function ByteAt(s: Space, addr: nat): Option<Byte>
    requires SpaceOk(s) && addr < PHYS_BASE
  {
    assert Holds(s.dir, s.mem, addr / PGSIZE);
    match PageBytes(s, addr / PGSIZE)
    case None => None
    case Some(bytes) => Some(bytes[addr % PGSIZE])
  }

  // ---------- loading pages ----------

  /** install_page of the first free user page, filled with these bytes. */
  function Install(s: Space, v: Page, bytes: seq<Byte>, writable: bool): (Space, bool)
    requires SpaceOk(s) && s.userPool != [] && |bytes| == PGSIZE
  {
    var pt := if s.tablePool == [] then None else Some(s.tablePool[0]);
    if View(s.dir, v).Some? then (s, false)
    else
      var (dir, ok) := SetPage(s.dir, v, s.userPool[0], writable, pt);
      if !ok then (s, false)
      else
        (Space(dir, s.mem[s.userPool[0] := bytes], s.userPool[1..],
               if Entry(s.dir, v).None? then s.tablePool[1..] else s.tablePool),
         true)
  }

  function Min(a: nat, b: nat): nat { if a < b then a else b }

  /** What one page of a segment holds: bytes from the file, then zeros. */
  function PageImage(file: seq<Byte>, ofs: nat, read: nat): (r: seq<Byte>)
    requires read <= PGSIZE && (read > 0 ==> ofs + read <= |file|)
    ensures |r| == PGSIZE
    ensures forall k :: 0 <= k < PGSIZE ==> r[k] == if k < read then file[ofs + k] else 0
  {
    (if read > 0 then file[ofs..ofs + read] else []) + seq(PGSIZE - read, _ => 0)
  }

  /** load_segment.  The counters are natural numbers: none of the subtractions underflows. */
  function LoadPages(s: Space, file: seq<Byte>, ofs: nat, v: nat, read: nat, zero: nat, writable: bool): (Space, bool)
    requires SpaceOk(s) && (read + zero) % PGSIZE == 0 && v + (read + zero) / PGSIZE <= USER_PAGES
    decreases read + zero
  {
    if read == 0 && zero == 0 then (s, true)
    else
      var r := Min(read, PGSIZE);
      var z := PGSIZE - r;
      if s.userPool == [] || (r > 0 && ofs + r > |file|) then (s, false)
      else
        var (s', ok) := Install(s, v, PageImage(file, ofs, r), writable);
        if !ok then (s, false)
        else
          InstallKeeps(s, v, PageImage(file, ofs, r), writable, v);
          PageArith(v, read, zero, r);
          LoadPages(s', file, ofs + r, v + 1, read - r, zero - z, writable)
  }

  // ---------- what installing a page does ----------

  lemma InstallView(s: Space, v: Page, bytes: seq<Byte>, writable: bool, u: Page)
    requires SpaceOk(s) && s.userPool != [] && |bytes| == PGSIZE
    ensures var (r, ok) := Install(s, v, bytes, writable);
      && Wf(r.dir)
      && (!ok ==> r == s)
      && (ok ==> View(s.dir, v).None?)
      && (ok ==> View(r.dir, u) == if u == v then Some(Mapping(s.userPool[0], writable, false, false)) else View(s.dir, u))
  {
    var pt := if s.tablePool == [] then None else Some(s.tablePool[0]);
    if View(s.dir, v).None? {
      SetPageMaps(s.dir, v, s.userPool[0], writable, pt, u, 0);
    }
    hide Wf, View, SetPage, Entry;
  }

  lemma InstallTables(s: Space, v: Page, bytes: seq<Byte>, writable: bool)
    requires SpaceOk(s) && s.userPool != [] && |bytes| == PGSIZE
    ensures var r := Install(s, v, bytes, writable).0;
      PoolOk(r.userPool) && PoolOk(r.tablePool) && forall i :: 0 <= i < |r.tablePool| ==> r.tablePool[i] !in r.dir.tables
  {
  }

  /** One page is mapped that was not, with these bytes; no other page changes. */
  lemma InstallKeeps(s: Space, v: Page, bytes: seq<Byte>, writable: bool, u: Page)
    requires SpaceOk(s) && s.userPool != [] && |bytes| == PGSIZE
    ensures var (r, ok) := Install(s, v, bytes, writable);
      && SpaceOk(r)
      && (!ok ==> r == s)
      && (ok ==> View(s.dir, v).None?)
      && (ok && u == v ==>
          PageBytes(r, v) == Some(bytes) && View(r.dir, v).Some? && View(r.dir, v).value.writable == writable)
      && (u != v ==> View(r.dir, u) == View(s.dir, u) && PageBytes(r, u) == PageBytes(s, u))
  {
    var (r, ok) := Install(s, v, bytes, writable);
    InstallTables(s, v, bytes, writable);
    InstallView(s, v, bytes, writable, v);
    if ok {
      var k := s.userPool[0];
      assert r.mem == s.mem[k := bytes] && r.userPool == s.userPool[1..];
      hide Install, Wf, View, PoolOk;
      forall x: Page
        ensures View(r.dir, x) == if x == v then Some(Mapping(k, writable, false, false)) else View(s.dir, x)
        ensures Holds(r.dir, r.mem, x)
        ensures x != v && View(s.dir, x).Some? ==> View(s.dir, x).value.frame in s.mem && View(s.dir, x).value.frame != k
      {
        InstallView(s, v, bytes, writable, x);
        assert Holds(s.dir, s.mem, x);
      }
    }
  }

  // ---------- the image of a segment ----------

  /** Pages from v to w are the n bytes from the file at ofs, and zeros after them. */
  ghost predicate Image(s: Space, file: seq<Byte>, ofs: nat, v: nat, w: nat, read: nat, writable: bool)
    requires SpaceOk(s) && w <= USER_PAGES
  {
    forall x :: v <= x < w ==> SegmentPage(s, file, ofs, v, x, read, writable)
  }

  ghost predicate SegmentPage(s: Space, file: seq<Byte>, ofs: nat, v: nat, x: nat, read: nat, writable: bool)
    requires SpaceOk(s) && v <= x < USER_PAGES
  {
    PageIs(s, file, ofs + (x - v) * PGSIZE, x, Min(PGSIZE, Left(read, x - v)), writable)
  }

  /** Bytes left to read after n pages. */
  function Left(read: nat, n: nat): nat { if read < n * PGSIZE then 0 else read - n * PGSIZE }

  ghost predicate PageIs(s: Space, file: seq<Byte>, ofs: nat, x: Page, read: nat, writable: bool)
    requires SpaceOk(s)
  {
    && read <= PGSIZE && (read > 0 ==> ofs + read <= |file|)
    && View(s.dir, x).Some? && View(s.dir, x).value.writable == writable
    && PageBytes(s, x) == Some(PageImage(file, ofs, read))
  }

  /** Page u is as it was. */
  ghost predicate Untouched(s: Space, r: Space, u: Page)
    requires SpaceOk(s) && SpaceOk(r)
  {
    View(r.dir, u) == View(s.dir, u) && PageBytes(r, u) == PageBytes(s, u)
  }

  /** Pages from v to m, none of which was mapped in s, hold the segment in r; pages that were
      mapped before are as they were, as are all others. */
  ghost predicate LoadedTo(s: Space, r: Space, file: seq<Byte>, ofs: nat, v: nat, m: nat, read: nat, writable: bool)
    requires SpaceOk(s) && v <= m <= USER_PAGES
  {
    && SpaceOk(r)
    && Image(r, file, ofs, v, m, read, writable)
    && (forall x :: v <= x < m ==> View(s.dir, x).None?)
    && (forall u: Page :: View(s.dir, u).Some? || u < v || u >= m ==> Untouched(s, r, u))
  }

  /** What load_segment of pages v to w leads to: the segment is loaded up to some page, and up
      to the last if it succeeds. */
  ghost predicate Loaded(s: Space, r: Space, file: seq<Byte>, ofs: nat, v: nat, w: nat, read: nat, writable: bool, ok: bool)
    requires SpaceOk(s) && v <= w <= USER_PAGES
  {
    exists m :: v <= m <= w && (ok ==> m == w) && LoadedTo(s, r, file, ofs, v, m, read, writable)
  }

  lemma {:induction false} LoadsImage(s: Space, file: seq<Byte>, ofs: nat, v: nat, read: nat, zero: nat, writable: bool)
    requires SpaceOk(s) && (read + zero) % PGSIZE == 0 && v + (read + zero) / PGSIZE <= USER_PAGES
    ensures var (r, ok) := LoadPages(s, file, ofs, v, read, zero, writable);
      Loaded(s, r, file, ofs, v, v + (read + zero) / PGSIZE, read, writable, ok)
    decreases read + zero
  {
    hide SpaceOk, Loaded, Install, PageImage;
    LoadedNothing(s, file, ofs, v, v + (read + zero) / PGSIZE, read, writable);
    if read > 0 || zero > 0 {
      var n := Min(read, PGSIZE);
      if s.userPool != [] && (n == 0 || ofs + n <= |file|) {
        LoadsRest(s, file, ofs, v, read, zero, writable);
      }
    }
  }

  /** Everything but page v, and what was not mapped there. */
  lemma InstallLeaves(s: Space, v: Page, bytes: seq<Byte>, writable: bool)
    requires SpaceOk(s) && s.userPool != [] && |bytes| == PGSIZE
    ensures var (r, ok) := Install(s, v, bytes, writable);
      && SpaceOk(r) && (!ok ==> r == s) && (ok ==> View(s.dir, v).None?)
      && forall u: Page :: u != v ==> Untouched(s, r, u)
  {
    hide Wf, FramesOk, View, PageBytes, Install;
    InstallKeeps(s, v, bytes, writable, v);
    forall u: Page
      ensures u != v ==> Untouched(s, Install(s, v, bytes, writable).0, u)
    {
      InstallKeeps(s, v, bytes, writable, u);
    }
  }

  lemma UntouchedThen(s: Space, m: Space, r: Space, v: nat, w: nat)
    requires SpaceOk(s) && SpaceOk(m) && SpaceOk(r) && v < w <= USER_PAGES && View(s.dir, v).None?
    requires forall u: Page :: u != v ==> Untouched(s, m, u)
    requires forall u: Page :: View(m.dir, u).Some? || u < v + 1 || u >= w ==> Untouched(m, r, u)
    ensures forall u: Page :: View(s.dir, u).Some? || u < v || u >= w ==> Untouched(s, r, u)
  {
    hide Wf, FramesOk, View, PageBytes;
    forall u: Page | View(s.dir, u).Some? || u < v || u >= w
      ensures Untouched(s, r, u)
    {
      assert Untouched(s, m, u);
    }
  }

  lemma PageArith(v: nat, read: nat, zero: nat, n: nat)
    requires (read + zero) % PGSIZE == 0 && read + zero > 0 && n == Min(read, PGSIZE)
    ensures n <= read && n <= PGSIZE && PGSIZE - n <= zero
    ensures var rest := (read - n) + (zero - (PGSIZE - n));
      rest % PGSIZE == 0 && rest < read + zero && v + 1 + rest / PGSIZE == v + (read + zero) / PGSIZE
  {
  }

  lemma LoadsRest(s: Space, file: seq<Byte>, ofs: nat, v: nat, read: nat, zero: nat, writable: bool)
    requires SpaceOk(s) && (read + zero) % PGSIZE == 0 && v + (read + zero) / PGSIZE <= USER_PAGES
    requires (read > 0 || zero > 0) && s.userPool != [] && (Min(read, PGSIZE) == 0 || ofs + Min(read, PGSIZE) <= |file|)
    ensures var (r, ok) := LoadPages(s, file, ofs, v, read, zero, writable);
      Loaded(s, r, file, ofs, v, v + (read + zero) / PGSIZE, read, writable, ok)
    decreases read + zero, 0
  {
    hide SpaceOk, Install, PageImage, Loaded, View, Untouched, Min, LoadPages, PageBytes, Wf, FramesOk;
    var n, w := Min(read, PGSIZE), v + (read + zero) / PGSIZE;
    PageArith(v, read, zero, n);
    var bytes := PageImage(file, ofs, n);
    var (s', installed) := Install(s, v, bytes, writable);
    InstallLeaves(s, v, bytes, writable);
    InstallKeeps(s, v, bytes, writable, v);
    LoadUnfold(s, file, ofs, v, read, zero, writable, s', installed);
    if installed {
      var read', zero' := read - n, zero - (PGSIZE - n);
      LoadsImage(s', file, ofs + n, v + 1, read', zero', writable);
      var (r, ok) := LoadPages(s', file, ofs + n, v + 1, read', zero', writable);
      LoadedTogether(s, s', r, file, ofs, v, w, n, read, writable, ok);
    } else {
      LoadedNothing(s, file, ofs, v, w, read, writable);
    }
  }

  lemma LoadUnfold(s: Space, file: seq<Byte>, ofs: nat, v: nat, read: nat, zero: nat, writable: bool, s': Space, installed: bool)
    requires SpaceOk(s) && (read + zero) % PGSIZE == 0 && v + (read + zero) / PGSIZE <= USER_PAGES
    requires (read > 0 || zero > 0) && s.userPool != [] && (Min(read, PGSIZE) == 0 || ofs + Min(read, PGSIZE) <= |file|)
    requires v < USER_PAGES && (s', installed) == Install(s, v, PageImage(file, ofs, Min(read, PGSIZE)), writable)
    requires SpaceOk(s')
    requires PGSIZE - Min(read, PGSIZE) <= zero
    requires ((read - Min(read, PGSIZE)) + (zero - (PGSIZE - Min(read, PGSIZE)))) % PGSIZE == 0
    requires v + 1 + ((read - Min(read, PGSIZE)) + (zero - (PGSIZE - Min(read, PGSIZE)))) / PGSIZE <= USER_PAGES
    ensures var n := Min(read, PGSIZE);
      LoadPages(s, file, ofs, v, read, zero, writable) ==
        if installed then LoadPages(s', file, ofs + n, v + 1, read - n, zero - (PGSIZE - n), writable) else (s, false)
  {
  }

  lemma LoadedNothing(s: Space, file: seq<Byte>, ofs: nat, v: nat, w: nat, read: nat, writable: bool)
    requires SpaceOk(s) && v <= w <= USER_PAGES
    ensures Loaded(s, s, file, ofs, v, w, read, writable, false)
    ensures v == w ==> Loaded(s, s, file, ofs, v, w, read, writable, true)
  {
    Refl(s);
    hide Wf, FramesOk, View, PageBytes, Untouched;
    assert LoadedTo(s, s, file, ofs, v, v, read, writable);
  }

  /** The first page and the rest make up the segment. */
  lemma LoadedTogether(s: Space, m: Space, r: Space, file: seq<Byte>, ofs: nat, v: nat, w: nat, n: nat, read: nat, writable: bool, ok: bool)
    requires SpaceOk(s) && SpaceOk(m) && v < w <= USER_PAGES && n == Min(read, PGSIZE) <= PGSIZE && (n > 0 ==> ofs + n <= |file|)
    requires View(s.dir, v).None? && forall u: Page :: u != v ==> Untouched(s, m, u)
    requires PageBytes(m, v) == Some(PageImage(file, ofs, n)) && View(m.dir, v).Some? && View(m.dir, v).value.writable == writable
    requires Loaded(m, r, file, ofs + n, v + 1, w, read - n, writable, ok)
    ensures Loaded(s, r, file, ofs, v, w, read, writable, ok)
  {
    assert n <= read;
    hide Wf, FramesOk, View, PageBytes, PageImage, Image, Untouched, Min;
    var x :| v + 1 <= x <= w && (ok ==> x == w) && LoadedTo(m, r, file, ofs + n, v + 1, x, read - n, writable);
    UntouchedThen(s, m, r, v, x);
    FirstPage(m, r, file, ofs, v, n, writable);
    Extends(r, file, ofs, v, x, read, writable);
    NoneMapped(s, m, v, x);
    assert LoadedTo(s, r, file, ofs, v, x, read, writable);
  }

  lemma Refl(s: Space)
    requires SpaceOk(s)
    ensures forall u: Page :: Untouched(s, s, u)
  {
  }

  lemma NoneMapped(s: Space, m: Space, v: nat, w: nat)
    requires SpaceOk(s) && SpaceOk(m) && v < w <= USER_PAGES && View(s.dir, v).None?
    requires forall u: Page :: u != v ==> Untouched(s, m, u)
    requires forall x :: v + 1 <= x < w ==> View(m.dir, x).None?
    ensures forall x :: v <= x < w ==> View(s.dir, x).None?
  {
    hide Wf, FramesOk, View, PageBytes;
    forall x | v <= x < w
      ensures View(s.dir, x).None?
    {
      assert x != v ==> Untouched(s, m, x);
    }
  }

  lemma FirstPage(m: Space, r: Space, file: seq<Byte>, ofs: nat, v: nat, n: nat, writable: bool)
    requires SpaceOk(m) && SpaceOk(r) && v < USER_PAGES && Untouched(m, r, v)
    requires n <= PGSIZE && (n > 0 ==> ofs + n <= |file|)
    requires PageBytes(m, v) == Some(PageImage(file, ofs, n)) && View(m.dir, v).value.writable == writable
    ensures PageIs(r, file, ofs, v, n, writable)
  {
  }

  lemma Extends(r: Space, file: seq<Byte>, ofs: nat, v: nat, w: nat, read: nat, writable: bool)
    requires SpaceOk(r) && v < w <= USER_PAGES
    requires var n := Min(read, PGSIZE);
      Image(r, file, ofs + n, v + 1, w, read - n, writable) && PageIs(r, file, ofs, v, n, writable)
    ensures Image(r, file, ofs, v, w, read, writable)
  {
    hide Wf, FramesOk, View, PageBytes, PageImage;
    var n := Min(read, PGSIZE);
    forall x | v <= x < w
      ensures SegmentPage(r, file, ofs, v, x, read, writable)
    {
      if x > v {
        var at := ofs + n + (x - (v + 1)) * PGSIZE;
        assert SegmentPage(r, file, ofs + n, v + 1, x, read - n, writable);
        assert Left(read, x - v) == Left(read - n, x - (v + 1));
        if n < PGSIZE {
          ZeroImage(file, at, ofs + (x - v) * PGSIZE);
        }
      }
    }
  }

  lemma ZeroImage(file: seq<Byte>, a: nat, b: nat)
    ensures PageImage(file, a, 0) == PageImage(file, b, 0)
  {
  }

  // ---------- when loading succeeds ----------

  /** The page tables that pages v to w lack. */
  ghost function Missing(d: Dir, v: nat, w: nat): set<int>
    requires Wf(d) && w <= USER_PAGES
  {
    set i: int | 0 <= i < USER_TABLES && v < w && v / ENTRIES <= i && i * ENTRIES < w && IsNull(d.pd[i])
  }

  ghost predicate NoneThere(d: Dir, v: nat, w: nat)
    requires Wf(d) && w <= USER_PAGES
  {
    forall x :: v <= x < w ==> View(d, x).None?
  }

  /** No page of the segment is mapped, there are pages enough for it and for its tables, and
      the file reaches to its end. */
  ghost predicate CanLoad(s: Space, fileLength: nat, ofs: nat, v: nat, w: nat, read: nat)
    requires SpaceOk(s) && w <= USER_PAGES
  {
    && NoneThere(s.dir, v, w)
    && w - v <= |s.userPool|
    && |Missing(s.dir, v, w)| <= |s.tablePool|
    && (read > 0 ==> ofs + read <= fileLength)
  }

  /** install_page succeeds if and only if the page is not mapped and its table exists or can
      be made; a table that is made is taken from the pool. */
  lemma InstallSucceeds(s: Space, v: Page, bytes: seq<Byte>, writable: bool)
    requires SpaceOk(s) && s.userPool != [] && |bytes| == PGSIZE
    ensures var (r, ok) := Install(s, v, bytes, writable);
      && (ok <==> View(s.dir, v).None? && (!IsNull(s.dir.pd[PdNo(v)]) || s.tablePool != []))
      && (ok ==> |r.userPool| == |s.userPool| - 1)
      && (ok ==> |r.tablePool| == |s.tablePool| - One(IsNull(s.dir.pd[PdNo(v)])))
      && (ok ==> Wf(r.dir) && !IsNull(r.dir.pd[PdNo(v)]))
      && (ok ==> forall i :: 0 <= i < USER_TABLES && i != PdNo(v) ==> r.dir.pd[i] == s.dir.pd[i])
  {
    var pt := if s.tablePool == [] then None else Some(s.tablePool[0]);
    if View(s.dir, v).None? {
      SetPageDirectory(s.dir, v, s.userPool[0], writable, pt);
    }
    hide Wf, View, SetPage, IsNull, Store, AddTable;
  }

  lemma SetPageDirectory(d: Dir, v: Page, frame: Frame, writable: bool, pt: Option<Frame>)
    requires Wf(d) && Aligned(frame) && View(d, v).None? && (pt.Some? ==> FreshTable(d, pt.value))
    ensures var (r, ok) := SetPage(d, v, frame, writable, pt);
      && (ok <==> !IsNull(d.pd[PdNo(v)]) || pt.Some?)
      && Wf(r) && (ok ==> !IsNull(r.pd[PdNo(v)]))
      && (forall i :: 0 <= i < USER_TABLES && i != PdNo(v) ==> r.pd[i] == d.pd[i])
  {
    if IsNull(d.pd[PdNo(v)]) && pt.Some? {
      TableAdded(d, PdNo(v), pt.value);
    }
    hide Present, PdeCreate, PteCreateUser, FrameOf;
  }

  /** With the first page goes its table, if that was missing. */
  lemma OneTableLess(d: Dir, r: Dir, v: nat, w: nat)
    requires Wf(d) && Wf(r) && v < w <= USER_PAGES
    requires !IsNull(r.pd[PdNo(v)]) && forall i :: 0 <= i < USER_TABLES && i != PdNo(v) ==> r.pd[i] == d.pd[i]
    ensures |Missing(d, v, w)| == |Missing(r, v + 1, w)| + One(IsNull(d.pd[PdNo(v)]))
  {
    var a, b, k := Missing(d, v, w), Missing(r, v + 1, w), PdNo(v);
    forall i
      ensures i in a <==> i in b || (i == k && IsNull(d.pd[k]))
    {
      SpanOfTable(v, w, i);
    }
    assert k !in b;
    hide Wf, IsNull, Missing, PdNo;
    if IsNull(d.pd[k]) {
      assert a == b + {k};
    } else {
      assert a == b;
    }
  }

  lemma SpanOfTable(v: nat, w: nat, i: int)
    requires v < w
    ensures (v / ENTRIES <= i && i * ENTRIES < w) <==>
      i == v / ENTRIES || (v + 1 < w && (v + 1) / ENTRIES <= i && i * ENTRIES < w)
  {
  }

  lemma NoneThereAfter(s: Space, m: Space, v: nat, w: nat)
    requires SpaceOk(s) && SpaceOk(m) && v < w <= USER_PAGES
    requires forall u: Page :: u != v ==> Untouched(s, m, u)
    ensures NoneThere(s.dir, v, w) <==> View(s.dir, v).None? && NoneThere(m.dir, v + 1, w)
  {
    hide Wf, FramesOk, View, PageBytes;
    forall x | v + 1 <= x < w
      ensures View(m.dir, x) == View(s.dir, x)
    {
      assert Untouched(s, m, x);
    }
  }

  lemma FirstLoads(s: Space, m: Space, fileLength: nat, ofs: nat, v: nat, w: nat, read: nat, n: nat)
    requires SpaceOk(s) && SpaceOk(m) && v < w <= USER_PAGES && n == Min(read, PGSIZE) && View(s.dir, v).None?
    requires s.userPool != [] && (n > 0 ==> ofs + n <= fileLength) && |m.userPool| == |s.userPool| - 1
    requires !IsNull(s.dir.pd[PdNo(v)]) || s.tablePool != []
    requires |m.tablePool| == |s.tablePool| - One(IsNull(s.dir.pd[PdNo(v)]))
    requires !IsNull(m.dir.pd[PdNo(v)]) && forall i :: 0 <= i < USER_TABLES && i != PdNo(v) ==> m.dir.pd[i] == s.dir.pd[i]
    requires forall u: Page :: u != v ==> Untouched(s, m, u)
    ensures CanLoad(s, fileLength, ofs, v, w, read) <==> CanLoad(m, fileLength, ofs + n, v + 1, w, read - n)
  {
    OneTableLess(s.dir, m.dir, v, w);
    NoneThereAfter(s, m, v, w);
    hide Wf, FramesOk, View, IsNull, Missing, NoneThere, Untouched;
  }

  /** Without a first page there is no segment. */
  lemma FirstFails(s: Space, fileLength: nat, ofs: nat, v: nat, w: nat, read: nat)
    requires SpaceOk(s) && v < w <= USER_PAGES
    requires s.userPool == [] || View(s.dir, v).Some? || (IsNull(s.dir.pd[PdNo(v)]) && s.tablePool == [])
             || (Min(read, PGSIZE) > 0 && ofs + Min(read, PGSIZE) > fileLength)
    ensures !CanLoad(s, fileLength, ofs, v, w, read)
  {
    assert |s.dir.pd| == USER_TABLES;
    hide Wf, FramesOk, View;
    if IsNull(s.dir.pd[PdNo(v)]) {
      assert PdNo(v) in Missing(s.dir, v, w);
    }
  }

  lemma NothingToLoad(s: Space, fileLength: nat, ofs: nat, v: nat)
    requires SpaceOk(s) && v <= USER_PAGES
    ensures CanLoad(s, fileLength, ofs, v, v, 0)
  {
    hide FramesOk, View;
    assert Missing(s.dir, v, v) == {};
  }

  /** load_segment succeeds if and only if all that holds before it starts. */
  lemma {:induction false} LoadSucceeds(s: Space, file: seq<Byte>, ofs: nat, v: nat, read: nat, zero: nat, writable: bool)
    requires SpaceOk(s) && (read + zero) % PGSIZE == 0 && v + (read + zero) / PGSIZE <= USER_PAGES
    ensures LoadPages(s, file, ofs, v, read, zero, writable).1 <==>
      CanLoad(s, |file|, ofs, v, v + (read + zero) / PGSIZE, read)
    decreases read + zero
  {
    hide SpaceOk, Install, PageImage, View, Untouched, Min, LoadPages, CanLoad, IsNull;
    var n, w := Min(read, PGSIZE), v + (read + zero) / PGSIZE;
    if read == 0 && zero == 0 {
      NothingToLoad(s, |file|, ofs, v);
      LoadsNothing(s, file, ofs, v, writable);
    } else {
      PageArith(v, read, zero, n);
      if s.userPool == [] || (n > 0 && ofs + n > |file|) {
        FirstFails(s, |file|, ofs, v, w, read);
        LoadStops(s, file, ofs, v, read, zero, writable);
      } else {
        var bytes := PageImage(file, ofs, n);
        var (m, installed) := Install(s, v, bytes, writable);
        InstallSucceeds(s, v, bytes, writable);
        InstallLeaves(s, v, bytes, writable);
        LoadUnfold(s, file, ofs, v, read, zero, writable, m, installed);
        if installed {
          FirstLoads(s, m, |file|, ofs, v, w, read, n);
          LoadSucceeds(m, file, ofs + n, v + 1, read - n, zero - (PGSIZE - n), writable);
        } else {
          FirstFails(s, |file|, ofs, v, w, read);
        }
      }
    }
  }

  lemma LoadsNothing(s: Space, file: seq<Byte>, ofs: nat, v: nat, writable: bool)
    requires SpaceOk(s) && v <= USER_PAGES
    ensures LoadPages(s, file, ofs, v, 0, 0, writable) == (s, true)
  {
  }

  lemma LoadStops(s: Space, file: seq<Byte>, ofs: nat, v: nat, read: nat, zero: nat, writable: bool)
    requires SpaceOk(s) && (read + zero) % PGSIZE == 0 && v + (read + zero) / PGSIZE <= USER_PAGES && read + zero > 0
    requires s.userPool == [] || (Min(read, PGSIZE) > 0 && ofs + Min(read, PGSIZE) > |file|)
    ensures LoadPages(s, file, ofs, v, read, zero, writable) == (s, false)
  {
  }

  // ---------- program headers ----------

  /** The fields of a program header that loading looks at, as 32-bit words. */
  datatype Phdr = Phdr(offset: nat, vaddr: nat, filesz: nat, memsz: nat, writable: bool)

  ghost predicate Words(ph: Phdr) {
    ph.offset < WORD && ph.vaddr < WORD && ph.filesz < WORD && ph.memsz < WORD
  }

  /** validate_segment, in 32-bit arithmetic. */
  predicate Validate(ph: Phdr, fileLength: nat) {
    && ph.offset % PGSIZE == ph.vaddr % PGSIZE
    && ph.offset <= fileLength
    && ph.memsz >= ph.filesz
    && ph.memsz != 0
    && ph.vaddr < PHYS_BASE
    && (ph.vaddr + ph.memsz) % WORD < PHYS_BASE
    && (ph.vaddr + ph.memsz) % WORD >= ph.vaddr
    && ph.vaddr >= PGSIZE
  }

  function RoundUp(n: nat): nat { (n + PGSIZE - 1) % WORD / PGSIZE * PGSIZE }

  /** The counters that load computes, in 32-bit arithmetic. */
  function ReadBytes(ph: Phdr): nat {
    if ph.filesz > 0 then (ph.vaddr % PGSIZE + ph.filesz) % WORD else 0
  }

  function ZeroBytes(ph: Phdr): nat {
    (RoundUp((ph.vaddr % PGSIZE + ph.memsz) % WORD) - ReadBytes(ph)) % WORD
  }

  lemma RoundUpIs(n: nat)
    requires n + PGSIZE <= WORD
    ensures RoundUp(n) % PGSIZE == 0 && n <= RoundUp(n) < n + PGSIZE
  {
  }

  /** The counters without wrap-around. */
  lemma Counters(ph: Phdr, fileLength: nat)
    requires Words(ph) && Validate(ph, fileLength)
    ensures var ofs := ph.vaddr % PGSIZE;
      && ph.vaddr + ph.memsz < PHYS_BASE
      && ReadBytes(ph) == (if ph.filesz > 0 then ofs + ph.filesz else 0)
      && ReadBytes(ph) + ZeroBytes(ph) == RoundUp(ofs + ph.memsz)
  {
    var ofs := ph.vaddr % PGSIZE;
    assert ph.vaddr + ph.memsz < PHYS_BASE;
    assert (ofs + ph.memsz) % WORD == ofs + ph.memsz && (ofs + ph.filesz) % WORD == ofs + ph.filesz;
    RoundUpIs(ofs + ph.memsz);
    hide RoundUp;
  }

  /** For a header that validates: nothing wraps around, the counters make up whole pages that
      cover the segment and no more, and all of them are user pages, above page zero. */
  lemma ValidFits(ph: Phdr, fileLength: nat)
    requires Words(ph) && Validate(ph, fileLength)
    ensures var read, zero, ofs := ReadBytes(ph), ZeroBytes(ph), ph.vaddr % PGSIZE;
      && ph.vaddr + ph.memsz < PHYS_BASE
      && read == (if ph.filesz > 0 then ofs + ph.filesz else 0)
      && (read + zero) % PGSIZE == 0
      && ofs + ph.memsz <= read + zero < ofs + ph.memsz + PGSIZE
      && 1 <= ph.vaddr / PGSIZE && ph.vaddr / PGSIZE + (read + zero) / PGSIZE <= USER_PAGES
      && ph.vaddr / PGSIZE * PGSIZE + ofs == ph.vaddr
  {
    Counters(ph, fileLength);
    RoundUpIs(ph.vaddr % PGSIZE + ph.memsz);
    hide RoundUp, ReadBytes, ZeroBytes;
  }

  /** The case of PT_LOAD in load. */
  function LoadPhdr(s: Space, file: seq<Byte>, ph: Phdr): (Space, bool)
    requires SpaceOk(s) && Words(ph)
  {
    if !Validate(ph, |file|) then (s, false)
    else
      ValidFits(ph, |file|);
      LoadPages(s, file, ph.offset / PGSIZE * PGSIZE, ph.vaddr / PGSIZE, ReadBytes(ph), ZeroBytes(ph), ph.writable)
  }

  /** The byte of page x at position j, once the image is there. */
  lemma ImageByte(s: Space, file: seq<Byte>, ofs: nat, v: nat, w: nat, read: nat, writable: bool, k: nat)
    requires SpaceOk(s) && w <= USER_PAGES && Image(s, file, ofs, v, w, read, writable) && k < (w - v) * PGSIZE
    ensures v * PGSIZE + k < PHYS_BASE
    ensures k < read ==> ofs + k < |file|
    ensures ByteAt(s, v * PGSIZE + k) == Some(if k < read then file[ofs + k] else 0)
  {
    hide Wf, FramesOk, View;
    var x, j := v + k / PGSIZE, k % PGSIZE;
    assert (v * PGSIZE + k) / PGSIZE == x && (v * PGSIZE + k) % PGSIZE == j;
    assert SegmentPage(s, file, ofs, v, x, read, writable);
    assert ofs + (x - v) * PGSIZE + j == ofs + k;
  }

  /** Byte k of the segment. */
  lemma SegmentByte(r: Space, file: seq<Byte>, ph: Phdr, k: nat)
    requires SpaceOk(r) && Words(ph) && Validate(ph, |file|) && k < ph.memsz
    requires var v := ph.vaddr / PGSIZE; var n := ReadBytes(ph) + ZeroBytes(ph);
      v + n / PGSIZE <= USER_PAGES && Image(r, file, ph.offset / PGSIZE * PGSIZE, v, v + n / PGSIZE, ReadBytes(ph), ph.writable)
    ensures ph.vaddr + k < PHYS_BASE && (k < ph.filesz ==> ph.offset + k < |file|)
    ensures ByteAt(r, ph.vaddr + k) == Some(if k < ph.filesz then file[ph.offset + k] else 0)
  {
    ValidFits(ph, |file|);
    var v, n, skip := ph.vaddr / PGSIZE, ReadBytes(ph) + ZeroBytes(ph), ph.vaddr % PGSIZE;
    var ofs := ph.offset / PGSIZE * PGSIZE;
    assert ph.offset == ofs + skip;
    hide Wf, FramesOk, ReadBytes, ZeroBytes, Image, ByteAt, Validate;
    assert v * PGSIZE + (skip + k) == ph.vaddr + k;
    ImageByte(r, file, ofs, v, v + n / PGSIZE, ReadBytes(ph), ph.writable, skip + k);
  }

  /** When a segment validates and loads, its bytes in memory are those in the file and the
      rest of its memory is zero. */
  lemma SegmentImage(s: Space, file: seq<Byte>, ph: Phdr)
    requires SpaceOk(s) && Words(ph) && LoadPhdr(s, file, ph).1
    ensures var r := LoadPhdr(s, file, ph).0;
      && SpaceOk(r)
      && ph.vaddr + ph.memsz <= PHYS_BASE && ph.offset + ph.filesz <= |file|
      && (forall a {:trigger ByteAt(r, a)} :: ph.vaddr <= a < ph.vaddr + ph.memsz ==>
          ByteAt(r, a) == Some(if a - ph.vaddr < ph.filesz then file[ph.offset + (a - ph.vaddr)] else 0))
  {
    hide SpaceOk, LoadPhdr, ReadBytes, ZeroBytes, Image, ByteAt, Validate;
    SegmentLoaded(s, file, ph);
    ValidFits(ph, |file|);
    var r := LoadPhdr(s, file, ph).0;
    OffsetFits(ph, |file|);
    if ph.filesz > 0 {
      SegmentByte(r, file, ph, ph.filesz - 1);
    }
    forall a {:trigger ByteAt(r, a)} | ph.vaddr <= a < ph.vaddr + ph.memsz
      ensures ByteAt(r, a) == Some(if a - ph.vaddr < ph.filesz then file[ph.offset + (a - ph.vaddr)] else 0)
    {
      SegmentByte(r, file, ph, a - ph.vaddr);
    }
  }

  lemma OffsetFits(ph: Phdr, fileLength: nat)
    requires Validate(ph, fileLength)
    ensures ph.offset <= fileLength && ph.filesz <= ph.memsz
  {
  }

  lemma SegmentLoaded(s: Space, file: seq<Byte>, ph: Phdr)
    requires SpaceOk(s) && Words(ph) && LoadPhdr(s, file, ph).1
    ensures var r := LoadPhdr(s, file, ph).0; var v := ph.vaddr / PGSIZE; var n := ReadBytes(ph) + ZeroBytes(ph);
      && SpaceOk(r) && Validate(ph, |file|)
      && v + n / PGSIZE <= USER_PAGES && Image(r, file, ph.offset / PGSIZE * PGSIZE, v, v + n / PGSIZE, ReadBytes(ph), ph.writable)
  {
    hide SpaceOk, LoadPages, ReadBytes, ZeroBytes, Image, Untouched, View, Validate;
    ValidFits(ph, |file|);
    LoadsImage(s, file, ph.offset / PGSIZE * PGSIZE, ph.vaddr / PGSIZE, ReadBytes(ph), ZeroBytes(ph), ph.writable);
  }

  /** A segment loads if and only if it validates, and there is what its pages need. */
  lemma SegmentLoads(s: Space, file: seq<Byte>, ph: Phdr)
    requires SpaceOk(s) && Words(ph)
    ensures LoadPhdr(s, file, ph).1 <==>
      && Validate(ph, |file|)
      && var v, n := ph.vaddr / PGSIZE, (ReadBytes(ph) + ZeroBytes(ph)) / PGSIZE;
         v + n <= USER_PAGES && CanLoad(s, |file|, ph.offset / PGSIZE * PGSIZE, v, v + n, ReadBytes(ph))
  {
    hide SpaceOk, LoadPages, ReadBytes, ZeroBytes, CanLoad, Validate;
    if Validate(ph, |file|) {
      ValidFits(ph, |file|);
      LoadSucceeds(s, file, ph.offset / PGSIZE * PGSIZE, ph.vaddr / PGSIZE, ReadBytes(ph), ZeroBytes(ph), ph.writable);
    }
  }

  /** Loading a segment, whether it succeeds or not, leaves alone every page that was mapped
      and every page outside of it. */
  lemma SegmentTouchesNothingElse(s: Space, file: seq<Byte>, ph: Phdr, u: Page)
    requires SpaceOk(s) && Words(ph)
    requires View(s.dir, u).Some? || u < ph.vaddr / PGSIZE || u * PGSIZE >= ph.vaddr + ph.memsz
    ensures SpaceOk(LoadPhdr(s, file, ph).0) && Untouched(s, LoadPhdr(s, file, ph).0, u)
  {
    if Validate(ph, |file|) {
      ValidFits(ph, |file|);
      LoadsImage(s, file, ph.offset / PGSIZE * PGSIZE, ph.vaddr / PGSIZE, ReadBytes(ph), ZeroBytes(ph), ph.writable);
    } else {
      Refl(s);
    }
    hide Wf, FramesOk, View, PageBytes, LoadPages, Untouched, ReadBytes, ZeroBytes, Validate;
  }

  // ---------- the loop of load_segment ----------

  class Process {
    var dir: Dir
    var mem: map<Frame, seq<Byte>>
    var userPool: seq<Frame>
    var tablePool: seq<Frame>

    ghost function St(): Space
      reads this
    {
      Space(dir, mem, userPool, tablePool)
    }

    /** palloc_get_page, the contents, and install_page; a page that cannot be installed is
        free again. */
    method InstallPage(v: Page, bytes: seq<Byte>, writable: bool) returns (ok: bool)
      requires SpaceOk(St()) && userPool != [] && |bytes| == PGSIZE
      modifies this
      ensures (St(), ok) == Install(old(St()), v, bytes, writable)
    {
      if View(dir, v).Some? {
        return false;
      }
      var kpage := userPool[0];
      var pt := if tablePool == [] then None else Some(tablePool[0]);
      var needsTable := Entry(dir, v).None?;
      var (dir', done) := SetPage(dir, v, kpage, writable, pt);
      if !done {
        return false;
      }
      dir := dir';
      mem := mem[kpage := bytes];
      userPool := userPool[1..];
      if needsTable {
        tablePool := tablePool[1..];
      }
      return true;
    }

    method LoadSegment(file: seq<Byte>, ofs0: nat, upage0: nat, read0: nat, zero0: nat, writable: bool) returns (ok: bool)
      requires SpaceOk(St()) && (read0 + zero0) % PGSIZE == 0 && upage0 + (read0 + zero0) / PGSIZE <= USER_PAGES
      modifies this
      ensures (St(), ok) == LoadPages(old(St()), file, ofs0, upage0, read0, zero0, writable)
    {
      hide SpaceOk, Install, PageImage, View, Min;
      var ofs: nat, upage: nat, read: nat, zero: nat := ofs0, upage0, read0, zero0;
      ghost var result := LoadPages(St(), file, ofs, upage, read, zero, writable);
      while read > 0 || zero > 0
        invariant SpaceOk(St()) && (read + zero) % PGSIZE == 0 && upage + (read + zero) / PGSIZE <= USER_PAGES
        invariant LoadPages(St(), file, ofs, upage, read, zero, writable) == result
        decreases read + zero
      {
        var pageRead := Min(read, PGSIZE);
        PageArith(upage, read, zero, pageRead);
        var pageZero := PGSIZE - pageRead;
        if userPool == [] {
          return false;
        }
        if pageRead > 0 && ofs + pageRead > |file| {
          return false;
        }
        ghost var s := St();
        var bytes := PageImage(file, ofs, pageRead);
        InstallKeeps(s, upage, bytes, writable, upage);
        var installed := InstallPage(upage, bytes, writable);
        LoadUnfold(s, file, ofs, upage, read, zero, writable, St(), installed);
        if !installed {
          return false;
        }
        read := read - pageRead;
        zero := zero - pageZero;
        ofs := ofs + pageRead;
        upage := upage + 1;
      }
      return true;
    }
  }
}
