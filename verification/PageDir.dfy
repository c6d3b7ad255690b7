/** Two-level page tables: the map that a page directory represents, and a translation
    lookaside buffer that stays in step with it. */
module PageDir {
  import opened Common
  import opened Pte

  const PGSIZE := 4096
  const ENTRIES := 1024
  const USER_TABLES := 768 // pd_no (PHYS_BASE)
  const USER_PAGES := 786432 // pages below PHYS_BASE

  /** The physical address of a page. */
  datatype Frame = Frame(addr: Word)

  predicate Aligned(frame: Frame) { IsPage(frame.addr) }

  function FrameOf(w: Word): Frame { Frame(AddrOf(w)) }

  /** The user part of a page directory, and the page tables by physical address. */
  datatype Dir = Dir(pd: seq<Word>, tables: map<Frame, seq<Word>>)

  ghost predicate Wf(d: Dir) {
    && |d.pd| == USER_TABLES
    && (forall i :: 0 <= i < USER_TABLES && !IsNull(d.pd[i]) ==>
        Present(d.pd[i]) && FrameOf(d.pd[i]) in d.tables && |d.tables[FrameOf(d.pd[i])]| == ENTRIES)
    && (forall i, j :: 0 <= i < j < USER_TABLES && !IsNull(d.pd[i]) && !IsNull(d.pd[j]) ==>
        FrameOf(d.pd[i]) != FrameOf(d.pd[j]))
  }

  /** A user virtual page, by number; pd_no and pt_no of its addresses. */
  type Page = v: int | 0 <= v < USER_PAGES

  function PdNo(v: Page): (i: nat)
    ensures i < USER_TABLES
  {
    v / ENTRIES
  }

  function PtNo(v: Page): (i: nat)
    ensures i < ENTRIES
  {
    v % ENTRIES
  }

  /** The entry for v, if its page table exists: lookup_page without create. */
  function Entry(d: Dir, v: Page): Option<Word>
    requires Wf(d)
  {
    var pde := d.pd[PdNo(v)];
    if IsNull(pde) then None else Some(d.tables[FrameOf(pde)][PtNo(v)])
  }

  /** The entry for v is assigned. */
  function Store(d: Dir, v: Page, w: Word): (r: Dir)
    requires Wf(d) && Entry(d, v).Some?
    ensures Wf(r)
  {
    var pt := FrameOf(d.pd[PdNo(v)]);
    d.(tables := d.tables[pt := d.tables[pt][PtNo(v) := w]])
  }

  /** A frame that is free for a page table. */
  ghost predicate FreshTable(d: Dir, pt: Frame) {
    Aligned(pt) && pt !in d.tables
  }

  /** lookup_page with create, when palloc_get_page returned pt. */
  function AddTable(d: Dir, v: Page, pt: Frame): (r: Dir)
    requires Wf(d) && IsNull(d.pd[PdNo(v)]) && FreshTable(d, pt)
    ensures Wf(r)
  {
    TableAdded(d, PdNo(v), pt);
    d.(pd := d.pd[PdNo(v) := PdeCreate(pt.addr)], tables := d.tables[pt := EmptyTable()])
  }

  function EmptyTable(): seq<Word> { seq(ENTRIES, _ => 0) }

  lemma TableAdded(d: Dir, i: nat, pt: Frame)
    requires Wf(d) && i < USER_TABLES && IsNull(d.pd[i]) && FreshTable(d, pt)
    ensures FrameOf(PdeCreate(pt.addr)) == pt && !IsNull(PdeCreate(pt.addr))
    ensures Wf(d.(pd := d.pd[i := PdeCreate(pt.addr)], tables := d.tables[pt := EmptyTable()]))
  {
    PdeFields(pt.addr);
    hide IsNull, Present, AddrOf, PdeCreate, Aligned;
    var r := d.(pd := d.pd[i := PdeCreate(pt.addr)], tables := d.tables[pt := EmptyTable()]);
    assert forall j :: 0 <= j < USER_TABLES && j != i ==> r.pd[j] == d.pd[j];
  }

  lemma SamePlace(u: Page, v: Page)
    ensures u == v <==> PdNo(u) == PdNo(v) && PtNo(u) == PtNo(v)
  {
  }

  lemma StoreReads(d: Dir, v: Page, w: Word, u: Page)
    requires Wf(d) && Entry(d, v).Some?
    ensures Entry(Store(d, v, w), u) == if u == v then Some(w) else Entry(d, u)
  {
    SamePlace(u, v);
    hide IsNull, FrameOf, PdNo, PtNo;
    var i, j := PdNo(u), PdNo(v);
    if i != j && !IsNull(d.pd[i]) {
      assert FrameOf(d.pd[if i < j then i else j]) != FrameOf(d.pd[if i < j then j else i]);
    }
  }

  /** A new table has no entries but empty ones, and the other tables stay. */
  lemma AddTableReads(d: Dir, v: Page, pt: Frame, u: Page)
    requires Wf(d) && IsNull(d.pd[PdNo(v)]) && FreshTable(d, pt)
    ensures Entry(AddTable(d, v, pt), v) == Some(0)
    ensures Entry(AddTable(d, v, pt), u) == if PdNo(u) == PdNo(v) then Some(0) else Entry(d, u)
  {
    TableAdded(d, PdNo(v), pt);
    hide IsNull, FrameOf, PdNo, PtNo, PdeCreate, Aligned;
  }

  // ---------- the map that a directory represents ----------

  datatype Mapping = Mapping(frame: Frame, writable: bool, accessed: bool, dirty: bool)

  function MappingOf(w: Word): Mapping {
    Mapping(FrameOf(w), Writable(w), Accessed(w), Dirty(w))
  }

  /** Whether v is mapped, and how. */
  function View(d: Dir, v: Page): Option<Mapping>
    requires Wf(d)
  {
    var e := Entry(d, v);
    if e.None? || !Present(e.value) then None else Some(MappingOf(e.value))
  }

  /** pagedir_set_page of an unmapped page; `pt` is what palloc_get_page returns if it is
      called. */
  function SetPage(d: Dir, v: Page, frame: Frame, writable: bool, pt: Option<Frame>): (r: (Dir, bool))
    requires Wf(d) && Aligned(frame) && View(d, v).None? && (pt.Some? ==> FreshTable(d, pt.value))
    ensures Wf(r.0)
  {
    if Entry(d, v).Some? then (Store(d, v, PteCreateUser(frame.addr, writable)), true)
    else if pt.None? then (d, false)
    else
      AddTableReads(d, v, pt.value, v);
      (Store(AddTable(d, v, pt.value), v, PteCreateUser(frame.addr, writable)), true)
  }

  /** pagedir_get_page of an address at offset ofs in page v: the physical address. */
  function GetPage(d: Dir, v: Page, ofs: nat): Option<(Frame, nat)>
    requires Wf(d)
  {
    var e := Entry(d, v);
    if e.Some? && Present(e.value) then Some((FrameOf(e.value), ofs)) else None
  }

  function ClearPage(d: Dir, v: Page): (r: Dir)
    requires Wf(d)
    ensures Wf(r)
  {
    var e := Entry(d, v);
    if e.Some? && Present(e.value) then Store(d, v, ClearPresent(e.value)) else d
  }

  function SetPageDirty(d: Dir, v: Page, on: bool): (r: Dir)
    requires Wf(d)
    ensures Wf(r)
  {
    var e := Entry(d, v);
    if e.Some? then Store(d, v, SetDirty(e.value, on)) else d
  }

  function SetPageAccessed(d: Dir, v: Page, on: bool): (r: Dir)
    requires Wf(d)
    ensures Wf(r)
  {
    var e := Entry(d, v);
    if e.Some? then Store(d, v, SetAccessed(e.value, on)) else d
  }

  lemma NewMapping(frame: Frame, writable: bool)
    requires Aligned(frame)
    ensures var w := PteCreateUser(frame.addr, writable);
      Present(w) && User(w) && MappingOf(w) == Mapping(frame, writable, false, false)
  {
    PteFields(frame.addr, writable);
    hide Aligned, AddrOf, Present, User, Writable, Accessed, Dirty, PteCreateUser;
  }

  /** pagedir_set_page adds exactly one mapping, or fails for want of a page table and
      changes nothing; pagedir_get_page then returns the frame plus the offset. */
  lemma SetPageMaps(d: Dir, v: Page, frame: Frame, writable: bool, pt: Option<Frame>, u: Page, ofs: nat)
    requires Wf(d) && Aligned(frame) && View(d, v).None? && (pt.Some? ==> FreshTable(d, pt.value))
    ensures var (r, ok) := SetPage(d, v, frame, writable, pt);
      && (ok <==> Entry(d, v).Some? || pt.Some?)
      && (!ok ==> r == d)
      && (ok ==> View(r, u) == if u == v then Some(Mapping(frame, writable, false, false)) else View(d, u))
      && (ok ==> GetPage(r, v, ofs) == Some((frame, ofs)))
  {
    var w := PteCreateUser(frame.addr, writable);
    NewMapping(frame, writable);
    NullIsAbsent();
    if Entry(d, v).Some? {
      StoreReads(d, v, w, u);
      StoreReads(d, v, w, v);
    } else if pt.Some? {
      AddTableReads(d, v, pt.value, u);
      AddTableReads(d, v, pt.value, v);
      StoreReads(AddTable(d, v, pt.value), v, w, u);
      StoreReads(AddTable(d, v, pt.value), v, w, v);
    }
    hide PteCreateUser, Present, Writable, Accessed, Dirty, AddrOf, FrameOf, Entry, Store, AddTable, Wf;
  }

  /** pagedir_clear_page takes exactly one mapping away, and keeps the other bits. */
  lemma ClearPageUnmaps(d: Dir, v: Page, u: Page)
    requires Wf(d)
    ensures View(ClearPage(d, v), u) == if u == v then None else View(d, u)
    ensures Entry(ClearPage(d, v), v).Some? == Entry(d, v).Some?
    ensures Entry(d, v).Some? ==> MappingOf(Entry(ClearPage(d, v), v).value) == MappingOf(Entry(d, v).value)
  {
    var e := Entry(d, v);
    hide ClearPresent, Present, Writable, Accessed, Dirty, AddrOf, Entry, Store, Wf;
    if e.Some? && Present(e.value) {
      ClearPresentAlone(e.value);
      StoreReads(d, v, ClearPresent(e.value), u);
      StoreReads(d, v, ClearPresent(e.value), v);
    }
  }

  /** pagedir_set_dirty changes the dirty bit of one mapping alone. */
  lemma SetPageDirtySets(d: Dir, v: Page, on: bool, u: Page)
    requires Wf(d)
    ensures View(SetPageDirty(d, v, on), u) ==
      if u == v && View(d, v).Some? then Some(View(d, v).value.(dirty := on)) else View(d, u)
  {
    var e := Entry(d, v);
    hide SetDirty, Present, Writable, Accessed, Dirty, AddrOf, Entry, Store, Wf;
    if e.Some? {
      SetDirtyAlone(e.value, on);
      StoreReads(d, v, SetDirty(e.value, on), u);
    }
  }

  /** pagedir_set_accessed changes the accessed bit of one mapping alone. */
  lemma SetPageAccessedSets(d: Dir, v: Page, on: bool, u: Page)
    requires Wf(d)
    ensures View(SetPageAccessed(d, v, on), u) ==
      if u == v && View(d, v).Some? then Some(View(d, v).value.(accessed := on)) else View(d, u)
  {
    var e := Entry(d, v);
    hide SetAccessed, Present, Writable, Accessed, Dirty, AddrOf, Entry, Store, Wf;
    if e.Some? {
      SetAccessedAlone(e.value, on);
      StoreReads(d, v, SetAccessed(e.value, on), u);
    }
  }

  // ---------- destroying a directory ----------

  /** The pages that the inner loop of pagedir_destroy frees, from entry k of a table on. */
  function FreedPages(pt: seq<Word>, k: nat): seq<Frame>
    requires k <= |pt|
    decreases |pt| - k
  {
    if k == |pt| then []
    else (if Present(pt[k]) then [FrameOf(pt[k])] else []) + FreedPages(pt, k + 1)
  }

  /** What pagedir_destroy frees, from entry i of the directory on: mapped pages and tables. */
  function FreedFrom(d: Dir, i: nat): seq<Frame>
    requires Wf(d) && i <= USER_TABLES
    decreases USER_TABLES - i
  {
    if i == USER_TABLES then []
    else
      (if Present(d.pd[i]) then TableOf(d, i) else []) + FreedFrom(d, i + 1)
  }

  function TableOf(d: Dir, i: nat): seq<Frame>
    requires Wf(d) && i < USER_TABLES && Present(d.pd[i])
  {
    NullAbsent(d.pd[i]);
    FreedPages(d.tables[FrameOf(d.pd[i])], 0) + [FrameOf(d.pd[i])]
  }

  /** Entry k of the table maps frame f. */
  predicate MapsAt(pt: seq<Word>, k: int, f: Frame) {
    0 <= k < |pt| && Present(pt[k]) && FrameOf(pt[k]) == f
  }

  /** The entries of a table, from k on, that map f. */
  function EntriesFor(pt: seq<Word>, k: int, f: Frame): set<int> {
    set j: int | 0 <= j < |pt| && k <= j && MapsAt(pt, j, f)
  }

  lemma {:induction false} PagesFreed(pt: seq<Word>, k: nat, f: Frame)
    requires k <= |pt|
    ensures multiset(FreedPages(pt, k))[f] == |EntriesFor(pt, k, f)|
    decreases |pt| - k
  {
    hide Present, FrameOf;
    if k < |pt| {
      PagesFreed(pt, k + 1, f);
      if MapsAt(pt, k, f) {
        assert EntriesFor(pt, k, f) == EntriesFor(pt, k + 1, f) + {k};
      } else {
        assert EntriesFor(pt, k, f) == EntriesFor(pt, k + 1, f);
      }
    } else {
      assert EntriesFor(pt, k, f) == {};
    }
  }

  predicate MapsTo(d: Dir, v: Page, f: Frame)
    requires Wf(d)
  {
    View(d, v).Some? && View(d, v).value.frame == f
  }

  predicate IsTable(d: Dir, i: int, f: Frame)
    requires Wf(d)
  {
    0 <= i < USER_TABLES && !IsNull(d.pd[i]) && FrameOf(d.pd[i]) == f
  }

  /** The pages from table i on that f is mapped at. */
  ghost function PagesFor(d: Dir, i: nat, f: Frame): set<int>
    requires Wf(d)
  {
    set v: int | 0 <= v < USER_PAGES && i <= PdNo(v) && MapsTo(d, v, f)
  }

  /** The pages of table i that f is mapped at. */
  ghost function PagesIn(d: Dir, i: nat, f: Frame): set<int>
    requires Wf(d)
  {
    set v: int | 0 <= v < USER_PAGES && PdNo(v) == i && MapsTo(d, v, f)
  }

  /** Page tables, from i on, in frame f: one at most. */
  ghost function TablesFor(d: Dir, i: nat, f: Frame): set<int>
    requires Wf(d)
  {
    set j: int | i <= j < USER_TABLES && IsTable(d, j, f)
  }

  /** Sets that a function and its inverse take to each other have the same size. */
  lemma {:induction false} SameSize<T(!new), U(!new)>(s: set<T>, r: set<U>, f: T -> U, g: U -> T)
    requires forall x :: x in s ==> f(x) in r && g(f(x)) == x
    requires forall y :: y in r ==> g(y) in s && f(g(y)) == y
    ensures |s| == |r|
    decreases s
  {
    if s == {} {
      assert forall y :: y in r ==> g(y) in s;
      assert r == {};
    } else {
      var x :| x in s;
      SameSize(s - {x}, r - {f(x)}, f, g);
    }
  }

  /** A page of table i is mapped to f exactly if its place in the table is. */
  lemma PlaceMaps(d: Dir, i: nat, f: Frame, v: Page)
    requires Wf(d) && i < USER_TABLES && !IsNull(d.pd[i]) && PdNo(v) == i
    ensures MapsTo(d, v, f) <==> MapsAt(d.tables[FrameOf(d.pd[i])], PtNo(v), f)
  {
    hide Present, Accessed, Dirty, Writable, AddrOf;
  }

  lemma PlaceOf(i: nat, k: int)
    requires i < USER_TABLES && 0 <= k < ENTRIES
    ensures 0 <= i * ENTRIES + k < USER_PAGES && PdNo(i * ENTRIES + k) == i && PtNo(i * ENTRIES + k) == k
  {
  }

  lemma EntryIsPage(d: Dir, i: nat, f: Frame, k: int)
    requires Wf(d) && i < USER_TABLES && !IsNull(d.pd[i]) && 0 <= k < ENTRIES
    ensures k in EntriesFor(d.tables[FrameOf(d.pd[i])], 0, f) <==> i * ENTRIES + k in PagesIn(d, i, f)
  {
    PlaceOf(i, k);
    PlaceMaps(d, i, f, i * ENTRIES + k);
    hide View, Present, FrameOf, MapsTo, IsNull, MapsAt, PdNo, PtNo;
  }

  lemma EntriesRange(d: Dir, i: nat, f: Frame)
    requires Wf(d) && i < USER_TABLES && !IsNull(d.pd[i])
    ensures forall k :: k in EntriesFor(d.tables[FrameOf(d.pd[i])], 0, f) ==> 0 <= k < ENTRIES
    ensures forall v :: v in PagesIn(d, i, f) ==> 0 <= v - i * ENTRIES < ENTRIES
  {
    hide View, Present, FrameOf, MapsTo, IsNull, MapsAt;
  }

  lemma TableMaps(d: Dir, i: nat, f: Frame)
    requires Wf(d) && i < USER_TABLES && !IsNull(d.pd[i])
    ensures |EntriesFor(d.tables[FrameOf(d.pd[i])], 0, f)| == |PagesIn(d, i, f)|
  {
    var pt := d.tables[FrameOf(d.pd[i])];
    var s, pages := EntriesFor(pt, 0, f), PagesIn(d, i, f);
    var n := i * ENTRIES;
    EntriesRange(d, i, f);
    forall k | 0 <= k < ENTRIES
      ensures k in s <==> n + k in pages
    {
      EntryIsPage(d, i, f, k);
    }
    hide Wf, FrameOf, IsNull, EntriesFor, PagesIn;
    SameSize(s, pages, k => n + k, v => v - n);
  }

  lemma NoneInTable(d: Dir, i: nat, f: Frame)
    requires Wf(d) && i < USER_TABLES && IsNull(d.pd[i])
    ensures PagesIn(d, i, f) == {}
  {
    hide IsNull, Present, FrameOf;
  }

  /** One round of the outer loop. */
  lemma OneTable(d: Dir, i: nat, f: Frame)
    requires Wf(d) && i < USER_TABLES
    ensures Present(d.pd[i]) <==> !IsNull(d.pd[i])
    ensures multiset(if Present(d.pd[i]) then TableOf(d, i) else [])[f] == |PagesIn(d, i, f)| + One(IsTable(d, i, f))
  {
    NullAbsent(d.pd[i]);
    assert Present(d.pd[i]) <==> !IsNull(d.pd[i]);
    if Present(d.pd[i]) {
      TableMaps(d, i, f);
      hide Wf, View, Present, FrameOf, MapsTo, IsNull, FreedPages, EntriesFor, PagesIn;
      PagesFreed(d.tables[FrameOf(d.pd[i])], 0, f);
    } else {
      NoneInTable(d, i, f);
      hide Wf, View, Present, FrameOf, MapsTo, IsNull, PagesIn;
    }
  }

  lemma SplitPages(d: Dir, i: nat, f: Frame)
    requires Wf(d) && i <= USER_TABLES
    ensures i == USER_TABLES ==> PagesFor(d, i, f) == {} && TablesFor(d, i, f) == {}
    ensures i < USER_TABLES ==> |PagesFor(d, i, f)| == |PagesIn(d, i, f)| + |PagesFor(d, i + 1, f)|
    ensures i < USER_TABLES ==> |TablesFor(d, i, f)| == One(IsTable(d, i, f)) + |TablesFor(d, i + 1, f)|
  {
    hide Wf, MapsTo, IsTable;
    if i < USER_TABLES {
      assert PagesFor(d, i, f) == PagesIn(d, i, f) + PagesFor(d, i + 1, f);
      assert PagesIn(d, i, f) !! PagesFor(d, i + 1, f);
      assert TablesFor(d, i, f) == (if IsTable(d, i, f) then {i as int} else {}) + TablesFor(d, i + 1, f);
    }
  }

  /** From table i on, every frame is freed once for each page that it is mapped at, and once
      more if it is a page table. */
  lemma {:induction false} DestroyFrees(d: Dir, i: nat, f: Frame)
    requires Wf(d) && i <= USER_TABLES
    ensures multiset(FreedFrom(d, i))[f] == |PagesFor(d, i, f)| + |TablesFor(d, i, f)|
    decreases USER_TABLES - i
  {
    hide Wf, Present, IsTable, TableOf, PagesFor, PagesIn, TablesFor;
    SplitPages(d, i, f);
    if i < USER_TABLES {
      DestroyFrees(d, i + 1, f);
      OneTable(d, i, f);
    }
  }

  lemma OneTableEach(d: Dir, f: Frame)
    requires Wf(d)
    ensures |TablesFor(d, 0, f)| <= 1
  {
    var t := TablesFor(d, 0, f);
    if i :| i in t {
      assert t == {i};
    } else {
      assert t == {};
    }
  }

  /** pagedir_destroy frees no frame twice if and only if no frame is mapped at two pages, and
      none that is mapped is a page table. */
  lemma FreedOnce(d: Dir)
    requires Wf(d)
    ensures (forall f :: multiset(FreedFrom(d, 0))[f] <= 1) <==>
      (forall f :: |PagesFor(d, 0, f)| <= 1) && (forall f :: PagesFor(d, 0, f) == {} || TablesFor(d, 0, f) == {})
  {
    hide Wf, PagesFor, TablesFor, FreedFrom;
    forall f
      ensures multiset(FreedFrom(d, 0))[f] <= 1 <==> |PagesFor(d, 0, f)| <= 1 && (PagesFor(d, 0, f) == {} || TablesFor(d, 0, f) == {})
    {
      DestroyFrees(d, 0, f);
      OneTableEach(d, f);
    }
  }

  // ---------- the translation lookaside buffer ----------

  /** A cached translation. */
  datatype Cached = Cached(frame: Frame, writable: bool, user: bool, accessed: bool, dirty: bool)

  /** A page directory, whether it is the active one, and what the processor has cached of
      it. */
  datatype Mmu = Mmu(dir: Dir, active: bool, tlb: map<int, Cached>)

  function Cache(w: Word): Cached {
    Cached(FrameOf(w), Writable(w), User(w), Accessed(w), Dirty(w))
  }

  /** The cached translation agrees with this present entry. */
  predicate Agrees(c: Cached, w: Word) {
    && Present(w) && c.frame == FrameOf(w) && c.writable == Writable(w) && c.user == User(w)
    && (c.accessed ==> Accessed(w)) && (c.dirty ==> Dirty(w))
  }

  /** Only the active directory is cached, and every cached translation agrees with a present
      entry. */
  ghost predicate Inv(m: Mmu) {
    && Wf(m.dir)
    && (!m.active ==> m.tlb == map[])
    && (forall v :: v in m.tlb ==> CacheOk(m.dir, m.tlb, v))
  }

  ghost predicate CacheOk(d: Dir, tlb: map<int, Cached>, v: int)
    requires Wf(d) && v in tlb
  {
    0 <= v < USER_PAGES && Entry(d, v).Some? && Agrees(tlb[v], Entry(d, v).value)
  }

  datatype Step =
    | DoSetPage(v: Page, frame: Frame, writable: bool, pt: Option<Frame>)
    | DoClearPage(v: Page)
    | DoSetDirty(v: Page, on: bool)
    | DoSetAccessed(v: Page, on: bool)
    | DoActivate
    | DoSwitchAway
    | Walk(v: Page, write: bool)
    | WriteCached(v: Page)
    | Evict(v: Page)

  /** What the kernel asserts of its arguments, and when the processor takes a step: a walk
      that does not fault, a write through a cached translation. */
  ghost predicate Enabled(m: Mmu, step: Step)
    requires Wf(m.dir)
  {
    match step
    case DoSetPage(v, frame, _, pt) =>
      Aligned(frame) && View(m.dir, v).None? && (pt.Some? ==> FreshTable(m.dir, pt.value))
    case DoClearPage(_) => true
    case DoSetDirty(_, _) => true
    case DoSetAccessed(_, _) => true
    case DoActivate => true
    case DoSwitchAway => true
    case Walk(v, write) =>
      m.active && View(m.dir, v).Some? && User(Entry(m.dir, v).value) && (write ==> Writable(Entry(m.dir, v).value))
    case WriteCached(v) => m.active && v in m.tlb && m.tlb[v].user && m.tlb[v].writable
    case Evict(_) => true
  }

  /** invalidate_pagedir. */
  function Invalidate(m: Mmu): Mmu {
    if m.active then m.(tlb := map[]) else m
  }

  /** The processor sets the accessed bit of an entry that it uses, and the dirty bit of one
      that it writes through. */
  function Touched(w: Word, write: bool): Word {
    if write then SetDirty(SetAccessed(w, true), true) else SetAccessed(w, true)
  }

  function Next(m: Mmu, step: Step): Mmu
    requires Wf(m.dir) && Enabled(m, step)
  {
    match step
    case DoSetPage(v, frame, writable, pt) => m.(dir := SetPage(m.dir, v, frame, writable, pt).0)
    case DoClearPage(v) =>
      if View(m.dir, v).Some? then Invalidate(m.(dir := ClearPage(m.dir, v))) else m
    case DoSetDirty(v, on) =>
      if on then m.(dir := SetPageDirty(m.dir, v, on))
      else if Entry(m.dir, v).Some? then Invalidate(m.(dir := SetPageDirty(m.dir, v, on))) else m
    case DoSetAccessed(v, on) =>
      if on then m.(dir := SetPageAccessed(m.dir, v, on))
      else if Entry(m.dir, v).Some? then Invalidate(m.(dir := SetPageAccessed(m.dir, v, on))) else m
    case DoActivate => m.(active := true, tlb := map[])
    case DoSwitchAway => m.(active := false, tlb := map[])
    case Walk(v, write) =>
      var w := Touched(Entry(m.dir, v).value, write);
      m.(dir := Store(m.dir, v, w), tlb := m.tlb[v := Cache(w)])
    case WriteCached(v) =>
      if m.tlb[v].dirty then m
      else m.(dir := SetPageDirty(m.dir, v, true), tlb := m.tlb[v := m.tlb[v].(dirty := true)])
    case Evict(v) => m.(tlb := m.tlb - {v})
  }

  // ---------- what every step keeps ----------

  lemma TouchedKeeps(w: Word, write: bool)
    ensures var x := Touched(w, write);
      && FrameOf(x) == FrameOf(w) && Present(x) == Present(w) && Writable(x) == Writable(w) && User(x) == User(w)
      && Accessed(x) && (Dirty(w) || write <==> Dirty(x))
  {
    SetAccessedAlone(w, true);
    SetDirtyAlone(SetAccessed(w, true), true);
    hide SetAccessed, SetDirty, AddrOf, Present, Writable, User, Accessed, Dirty;
  }

  /** Cached translations survive the change of entry v to w when that of v does. */
  lemma StoreAgrees(d: Dir, tlb: map<int, Cached>, tlb': map<int, Cached>, v: Page, w: Word)
    requires Wf(d) && Entry(d, v).Some?
    requires forall u :: u in tlb ==> CacheOk(d, tlb, u)
    requires forall u :: u in tlb' && u != v ==> u in tlb && tlb'[u] == tlb[u]
    requires v in tlb' ==> Agrees(tlb'[v], w)
    ensures forall u :: u in tlb' ==> CacheOk(Store(d, v, w), tlb', u)
  {
    forall u | u in tlb'
      ensures CacheOk(Store(d, v, w), tlb', u)
    {
      if u != v {
        assert CacheOk(d, tlb, u);
        StoreReads(d, v, w, u);
      } else {
        StoreReads(d, v, w, v);
      }
    }
  }

  lemma DirtyAgrees(m: Mmu, v: Page)
    requires Inv(m)
    ensures Inv(m.(dir := SetPageDirty(m.dir, v, true)))
    ensures v in m.tlb ==> Inv(m.(dir := SetPageDirty(m.dir, v, true), tlb := m.tlb[v := m.tlb[v].(dirty := true)]))
  {
    var e := Entry(m.dir, v);
    if e.Some? {
      SetDirtyAlone(e.value, true);
      assert v in m.tlb ==> CacheOk(m.dir, m.tlb, v);
      hide SetDirty, AddrOf, Present, Writable, User, Accessed, Dirty, Entry, Store, Wf;
      StoreAgrees(m.dir, m.tlb, m.tlb, v, SetDirty(e.value, true));
      if v in m.tlb {
        StoreAgrees(m.dir, m.tlb, m.tlb[v := m.tlb[v].(dirty := true)], v, SetDirty(e.value, true));
      }
    }
  }

  lemma AccessedAgrees(m: Mmu, v: Page)
    requires Inv(m)
    ensures Inv(m.(dir := SetPageAccessed(m.dir, v, true)))
  {
    var e := Entry(m.dir, v);
    if e.Some? {
      SetAccessedAlone(e.value, true);
      assert v in m.tlb ==> CacheOk(m.dir, m.tlb, v);
      hide SetAccessed, AddrOf, Present, Writable, User, Accessed, Dirty, Entry, Store, Wf;
      StoreAgrees(m.dir, m.tlb, m.tlb, v, SetAccessed(e.value, true));
    }
  }

  lemma WalkAgrees(m: Mmu, v: Page, write: bool)
    requires Inv(m) && Enabled(m, Walk(v, write))
    ensures Inv(Next(m, Walk(v, write)))
  {
    var e := Entry(m.dir, v);
    TouchedKeeps(e.value, write);
    hide SetDirty, AddrOf, Present, Writable, User, Accessed, Dirty, Entry, Store, Wf, Touched;
    var w := Touched(e.value, write);
    StoreAgrees(m.dir, m.tlb, m.tlb[v := Cache(w)], v, w);
  }

  /** A page that is not mapped is not cached. */
  lemma SetPageAgrees(m: Mmu, v: Page, frame: Frame, writable: bool, pt: Option<Frame>)
    requires Inv(m) && Aligned(frame) && View(m.dir, v).None? && (pt.Some? ==> FreshTable(m.dir, pt.value))
    ensures Inv(m.(dir := SetPage(m.dir, v, frame, writable, pt).0))
  {
    assert v in m.tlb ==> CacheOk(m.dir, m.tlb, v);
    var w := PteCreateUser(frame.addr, writable);
    hide Aligned, AddrOf, Present, Writable, User, Accessed, Dirty, PteCreateUser, Entry, Store, AddTable;
    if Entry(m.dir, v).Some? {
      StoreAgrees(m.dir, m.tlb, m.tlb, v, w);
    } else if pt.Some? {
      var d := AddTable(m.dir, v, pt.value);
      AddTableReads(m.dir, v, pt.value, v);
      forall u | u in m.tlb
        ensures CacheOk(d, m.tlb, u)
      {
        assert CacheOk(m.dir, m.tlb, u);
        AddTableReads(m.dir, v, pt.value, u);
        SameTable(m.dir, u, v);
      }
      StoreAgrees(d, m.tlb, m.tlb, v, w);
    }
  }

  /** Pages of one table have entries together. */
  lemma SameTable(d: Dir, u: Page, v: Page)
    requires Wf(d)
    ensures PdNo(u) == PdNo(v) ==> Entry(d, u).Some? == Entry(d, v).Some?
  {
  }

  /** After every operation of the kernel and every step of the processor, each translation
      that the processor may have cached agrees with a present entry. */
  lemma StepKeeps(m: Mmu, step: Step)
    requires Inv(m) && Enabled(m, step)
    ensures Inv(Next(m, step))
  {
    hide Wf, Entry, Store, Agrees, SetPage, AddTable;
    match step
    case DoSetPage(v, frame, writable, pt) => SetPageAgrees(m, v, frame, writable, pt);
    case DoClearPage(v) =>
    case DoSetDirty(v, on) => DirtyAgrees(m, v);
    case DoSetAccessed(v, on) => AccessedAgrees(m, v);
    case DoActivate =>
    case DoSwitchAway =>
    case Walk(v, write) => WalkAgrees(m, v, write);
    case WriteCached(v) => DirtyAgrees(m, v);
    case Evict(v) =>
  }

  /** A step, and what it makes of a state in order. */
  ghost predicate Goes(m: Mmu, step: Step, r: Mmu) {
    Wf(m.dir) ==> Enabled(m, step) && r == Next(m, step)
  }

  ghost predicate IsRun(states: seq<Mmu>, steps: seq<Step>) {
    && |states| == |steps| + 1
    && forall i :: 0 <= i < |steps| ==> Goes(states[i], steps[i], states[i + 1])
  }

  /** The user half of a directory as pagedir_create leaves it, before it is activated. */
  function Created(): Mmu {
    Mmu(Dir(seq(USER_TABLES, _ => 0), map[]), false, map[])
  }

  lemma CreatedKeeps()
    ensures Inv(Created()) && forall v: Page :: View(Created().dir, v).None?
  {
    NullIsAbsent();
    NullAbsent(0);
    hide IsNull, Present;
  }

  lemma GoesKeeps(m: Mmu, step: Step, r: Mmu)
    requires Inv(m) && Goes(m, step, r)
    ensures Inv(r)
  {
    StepKeeps(m, step);
  }

  lemma {:induction false} RunKeeps(states: seq<Mmu>, steps: seq<Step>, i: nat)
    requires IsRun(states, steps) && Inv(states[0]) && i < |states|
    ensures Inv(states[i])
    decreases i
  {
    hide Inv, Goes;
    if i > 0 {
      RunKeeps(states, steps, i - 1);
      assert Goes(states[i - 1], steps[i - 1], states[i]);
      GoesKeeps(states[i - 1], steps[i - 1], states[i]);
    }
  }

  /** A cached translation leads where pagedir_get_page says, with the same rights. */
  lemma TranslationAgrees(m: Mmu, v: Page, ofs: nat)
    requires Inv(m) && v in m.tlb
    ensures GetPage(m.dir, v, ofs) == Some((m.tlb[v].frame, ofs))
    ensures m.tlb[v].writable == View(m.dir, v).value.writable
  {
    hide Entry, Wf, Present, Writable, Accessed, Dirty, User, AddrOf;
    assert CacheOk(m.dir, m.tlb, v);
  }

  /** No write goes unnoticed: whether the processor walks the tables or writes through what
      it cached, pagedir_is_dirty answers yes afterwards. */
  lemma WritesAreSeen(m: Mmu, v: Page, step: Step)
    requires Inv(m) && Enabled(m, step) && (step == Walk(v, true) || step == WriteCached(v))
    ensures var r := Next(m, step);
      Inv(r) && View(r.dir, v).Some? && View(r.dir, v).value.dirty
  {
    StepKeeps(m, step);
    if step.Walk? {
      WalkIsSeen(m, v);
    } else {
      WriteIsSeen(m, v);
    }
    hide Inv, Wf, View, Entry, Store, Touched, SetDirty;
  }

  lemma WalkIsSeen(m: Mmu, v: Page)
    requires Inv(m) && Enabled(m, Walk(v, true))
    ensures var r := Next(m, Walk(v, true)); Wf(r.dir) && View(r.dir, v).Some? && View(r.dir, v).value.dirty
  {
    var e := Entry(m.dir, v);
    hide Inv, Wf, Entry, Store, Present, Writable, Accessed, Dirty, User, AddrOf, SetDirty, SetAccessed, Touched;
    TouchedKeeps(e.value, true);
    StoreReads(m.dir, v, Touched(e.value, true), v);
  }

  lemma WriteIsSeen(m: Mmu, v: Page)
    requires Inv(m) && Enabled(m, WriteCached(v))
    ensures var r := Next(m, WriteCached(v)); Wf(r.dir) && View(r.dir, v).Some? && View(r.dir, v).value.dirty
  {
    CachedIsMapped(m, v);
    SetPageDirtySets(m.dir, v, true, v);
    hide Inv, Wf, View, SetPageDirty;
  }

  lemma CachedIsMapped(m: Mmu, v: Page)
    requires Inv(m) && v in m.tlb
    ensures View(m.dir, v).Some? && (m.tlb[v].dirty ==> View(m.dir, v).value.dirty)
  {
    assert CacheOk(m.dir, m.tlb, v);
    hide Wf, Entry, Present, Writable, Accessed, Dirty, User, AddrOf;
  }

  // ---------- the kernel's side in place ----------

  /** A page directory with what the processor caches of it. */
  /** What the loop of pagedir_destroy has freed when it comes to table i. */
  ghost predicate FreedSoFar(d: Dir, i: nat, freed: seq<Frame>)
    requires Wf(d) && i <= USER_TABLES
  {
    freed + FreedFrom(d, i) == FreedFrom(d, 0)
  }

  lemma FreedFirst(d: Dir)
    requires Wf(d)
    ensures FreedSoFar(d, 0, []) && |d.pd| == USER_TABLES
  {
    hide FreedFrom;
  }

  lemma FreedNext(d: Dir, i: nat, freed: seq<Frame>)
    requires Wf(d) && i < USER_TABLES && FreedSoFar(d, i, freed)
    ensures Present(d.pd[i]) ==> FrameOf(d.pd[i]) in d.tables && |d.tables[FrameOf(d.pd[i])]| == ENTRIES
    ensures Present(d.pd[i]) ==> FreedSoFar(d, i + 1, freed + (FreedPages(d.tables[FrameOf(d.pd[i])], 0) + [FrameOf(d.pd[i])]))
    ensures !Present(d.pd[i]) ==> FreedSoFar(d, i + 1, freed)
  {
    NullAbsent(d.pd[i]);
    hide Present, FrameOf, FreedPages;
    var rest := FreedFrom(d, i + 1);
    if Present(d.pd[i]) {
      var table := FreedPages(d.tables[FrameOf(d.pd[i])], 0) + [FrameOf(d.pd[i])];
      Regroup(freed, table, rest);
    } else {
      assert [] + rest == rest;
    }
  }

  lemma FreedLast(d: Dir, freed: seq<Frame>)
    requires Wf(d) && FreedSoFar(d, USER_TABLES, freed)
    ensures freed == FreedFrom(d, 0)
  {
    assert freed + [] == freed;
  }

  lemma Regroup(a: seq<Frame>, b: seq<Frame>, c: seq<Frame>)
    ensures a + (b + c) == a + b + c
  {
  }

  /** What pagedir_set_page does once lookup_page has come back. */
  lemma SetPageIs(d: Dir, v: Page, frame: Frame, writable: bool, pt: Option<Frame>)
    requires Wf(d) && Aligned(frame) && View(d, v).None? && (pt.Some? ==> FreshTable(d, pt.value))
    ensures Entry(d, v).None? ==> IsNull(d.pd[PdNo(v)])
    ensures Entry(d, v).None? && pt.Some? ==> Entry(AddTable(d, v, pt.value), v).Some?
    ensures var m := if Entry(d, v).None? && pt.Some? then AddTable(d, v, pt.value) else d;
      SetPage(d, v, frame, writable, pt) ==
        if Entry(m, v).Some? then (Store(m, v, PteCreateUser(frame.addr, writable)), true) else (d, false)
  {
    if Entry(d, v).None? && pt.Some? {
      AddTableReads(d, v, pt.value, v);
    }
    hide Wf, Store, AddTable, PteCreateUser;
  }

  class PageDirectory {
    var dir: Dir
    var active: bool
    ghost var tlb: map<int, Cached>

    ghost function St(): Mmu
      reads this
    {
      Mmu(dir, active, tlb)
    }

    /** lookup_page: the entry for v, if it has a page table; with create, a new one is made
        when pt is a page for it. */
    method LookupPage(v: Page, create: bool, pt: Option<Frame>) returns (pte: Option<Word>)
      requires Wf(dir) && (pt.Some? ==> FreshTable(dir, pt.value))
      modifies this`dir
      ensures Wf(dir) && pte == Entry(dir, v)
      ensures dir == if old(Entry(dir, v)).None? && create && pt.Some? then AddTable(old(dir), v, pt.value) else old(dir)
    {
      if IsNull(dir.pd[PdNo(v)]) {
        if !create || pt.None? {
          return None;
        }
        AddTableReads(dir, v, pt.value, v);
        dir := AddTable(dir, v, pt.value);
      }
      return Entry(dir, v);
    }

    method InvalidatePagedir()
      modifies this`tlb
      ensures St() == Invalidate(old(St()))
    {
      if active {
        tlb := map[];
      }
    }

    /** pagedir_set_page. */
    method Set(v: Page, frame: Frame, writable: bool, pt: Option<Frame>) returns (ok: bool)
      requires Wf(dir) && Enabled(St(), DoSetPage(v, frame, writable, pt))
      modifies this`dir
      ensures St() == Next(old(St()), DoSetPage(v, frame, writable, pt))
      ensures ok == SetPage(old(dir), v, frame, writable, pt).1
    {
      SetPageIs(dir, v, frame, writable, pt);
      hide Wf, View, Entry, Store, AddTable, IsNull, PteCreateUser, SetPage, FreshTable;
      var pte := LookupPage(v, true, pt);
      if pte.None? {
        return false;
      }
      dir := Store(dir, v, PteCreateUser(frame.addr, writable));
      return true;
    }

    /** pagedir_clear_page. */
    method Clear(v: Page)
      requires Wf(dir)
      modifies this
      ensures St() == Next(old(St()), DoClearPage(v))
    {
      var pte := LookupPage(v, false, None);
      if pte.Some? && Present(pte.value) {
        dir := Store(dir, v, ClearPresent(pte.value));
        InvalidatePagedir();
      }
    }

    /** pagedir_set_dirty. */
    method MarkDirty(v: Page, on: bool)
      requires Wf(dir)
      modifies this
      ensures St() == Next(old(St()), DoSetDirty(v, on))
    {
      var pte := LookupPage(v, false, None);
      if pte.Some? {
        dir := Store(dir, v, SetDirty(pte.value, on));
        if !on {
          InvalidatePagedir();
        }
      }
    }

    /** pagedir_set_accessed. */
    method MarkAccessed(v: Page, on: bool)
      requires Wf(dir)
      modifies this
      ensures St() == Next(old(St()), DoSetAccessed(v, on))
    {
      var pte := LookupPage(v, false, None);
      if pte.Some? {
        dir := Store(dir, v, SetAccessed(pte.value, on));
        if !on {
          InvalidatePagedir();
        }
      }
    }

    /** The inner loop of pagedir_destroy: the pages of one table, in order. */
    static method FreePages(pt: seq<Word>) returns (freed: seq<Frame>)
      ensures freed == FreedPages(pt, 0)
    {
      hide Present, FrameOf;
      freed := [];
      var pte := 0;
      while pte < |pt|
        invariant 0 <= pte <= |pt| && freed + FreedPages(pt, pte) == FreedPages(pt, 0)
      {
        ghost var rest := FreedPages(pt, pte + 1);
        if Present(pt[pte]) {
          assert freed + ([FrameOf(pt[pte])] + rest) == freed + [FrameOf(pt[pte])] + rest;
          freed := freed + [FrameOf(pt[pte])];
        } else {
          assert [] + rest == rest;
        }
        pte := pte + 1;
      }
      assert freed + [] == freed;
    }

    /** pagedir_destroy: the pages freed, in order, before that of the directory itself. */
    method Destroy() returns (freed: seq<Frame>)
      requires Wf(dir)
      ensures freed == FreedFrom(dir, 0)
    {
      hide FreedSoFar, Present, FrameOf, FreedPages, FreedFrom, Wf;
      FreedFirst(dir);
      freed := [];
      var pde := 0;
      while pde < USER_TABLES
        invariant 0 <= pde <= USER_TABLES && FreedSoFar(dir, pde, freed)
      {
        FreedNext(dir, pde, freed);
        if Present(dir.pd[pde]) {
          var pages := FreePages(dir.tables[FrameOf(dir.pd[pde])]);
          freed := freed + (pages + [FrameOf(dir.pd[pde])]);
        }
        pde := pde + 1;
      }
      FreedLast(dir, freed);
    }
  }
}
