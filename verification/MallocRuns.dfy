/** malloc, free and realloc, and what every sequence of calls keeps. */
module MallocRuns {
  import opened Common
  import opened Bitmap
  import opened MallocState
  import opened MallocSteps

  // ---------- the calls ----------

  function MallocBig(h: Heap, size: nat): (Heap, Option<Addr>) {
    var cnt := PageCount(size);
    if cnt == 0 then (h, None)
    else
      match Scan(h.used, 0, cnt)
      case None => (h, None)
      case Some(p) => (TakePages(h, p, Arena(None, cnt)).(live := h.live[Big(p) := Usable(size)]), Some(Big(p)))
  }

  function MallocSmall(h: Heap, d: nat, size: nat): (Heap, Option<Addr>)
    requires Good(h) && d < DESC_CNT && 0 < size <= BlockSize(d)
  {
    if h.free[d] != [] then
      PopKeeps(h, d, size, None);
      Pop(h, d, size)
    else
      match Scan(h.used, 0, 1)
      case None => (h, None)
      case Some(p) =>
        NewArenaKeeps(h, d, p);
        PopKeeps(NewArena(h, d, p), d, size, Some(p));
        Pop(NewArena(h, d, p), d, size)
  }

  function Malloc(h: Heap, size: nat): (Heap, Option<Addr>)
    requires Good(h)
  {
    var d := DescFor(size, 0);
    if size == 0 then (h, None) else if d == DESC_CNT then MallocBig(h, size) else MallocSmall(h, d, size)
  }

  /** free of a block that malloc or realloc returned. */
  function FreeBlock(h: Heap, b: Addr): Heap
    requires Good(h) && b in h.live
  {
    var p := Page(b);
    match h.arenas[p].desc
    case None =>
      DropBigKeeps(h, b);
      DropPages(h.(live := h.live - {b}), p)
    case Some(d) =>
      PushKeeps(h, d, b);
      var h' := Push(h, d, b);
      if h'.arenas[p].freeCnt >= PerArena(d) then
        DismantleKeeps(h', d, p);
        Dismantle(h', d, p)
      else h'
  }

  function Free(h: Heap, b: Option<Addr>): Heap
    requires Good(h) && (b.Some? ==> b.value in h.live)
  {
    if b.None? then h else FreeBlock(h, b.value)
  }

  /** A request that does not wrap around when the header is added. */
  predicate Fits(size: nat) {
    size + HEADER <= WORD
  }

  /** The bytes that a caller of malloc may use: those it asked for or, when the request wraps
      around, those of the one page that it gets. */
  function Usable(size: nat): nat {
    if Fits(size) then size else PGSIZE - HEADER
  }

  function Min(a: nat, b: nat): nat { if a < b then a else b }

  /** realloc after malloc found the block nb: copy and free. */
  function Move(h: Heap, b: Addr, nb: Addr, size: nat): Heap
    requires Good(h) && b in h.live && nb in h.live && nb != b && Min(size, Room(h.arenas[Page(b)])) <= h.live[nb]
  {
    SlotInArena(h, None, b);
    SlotInArena(h, None, nb);
    var n := Min(size, Room(h.arenas[Page(b)]));
    FreeBlock(h.(mem := Copy(h.mem, nb, b, n)), b)
  }

  /** What realloc needs of its arguments: the copy stays within the new block, as
      `ReallocCopies` shows exactly. */
  predicate CopyFits(h: Heap, b: Option<Addr>, size: nat)
    requires Good(h) && (b.Some? ==> b.value in h.live)
  {
    Fits(size) || (size < WORD && (b.Some? ==> Room(h.arenas[Page(b.value)]) <= PGSIZE - HEADER))
  }

  function Realloc(h: Heap, b: Option<Addr>, size: nat): (Heap, Option<Addr>)
    requires Good(h) && (b.Some? ==> b.value in h.live) && CopyFits(h, b, size)
  {
    if size == 0 then (Free(h, b), None)
    else
      MallocKeeps(h, size);
      var (h', nb) := Malloc(h, size);
      MoveFits(h, h', b, nb, size);
      if b.Some? && nb.Some? then (Move(h', b.value, nb.value, size), nb) else (h', nb)
  }

  /** The program stores data in a block. */
  function Write(h: Heap, b: Addr, ofs: nat, data: seq<Byte>): Heap
    requires Good(h) && b in h.live && ofs + |data| <= Room(h.arenas[Page(b)])
  {
    SlotInArena(h, None, b);
    h.(mem := h.mem[..b + ofs] + data + h.mem[b + ofs + |data|..])
  }

  // ---------- what the calls keep ----------

  lemma PageCountFits(size: nat)
    requires size < WORD
    ensures PageCount(size) > 0 ==> (PageCount(size) * PGSIZE - HEADER >= size <==> Fits(size))
  {
  }

  /** A block returned is new, of this size, and nothing else changes hands. */
  ghost predicate Gives(h: Heap, r: Heap, b: Option<Addr>, size: nat) {
    && r.mem == h.mem && |r.used| == |h.used|
    && (b.None? ==> r == h)
    && (b.Some? ==> b.value !in h.live && r.live == h.live[b.value := size])
    && (forall x :: x in h.live && Page(x) in h.arenas ==>
        Page(x) in r.arenas && r.arenas[Page(x)].desc == h.arenas[Page(x)].desc
        && Span(r.arenas[Page(x)]) == Span(h.arenas[Page(x)]))
  }

  lemma PopGives(h: Heap, d: nat, size: nat, full: Option<nat>)
    requires Almost(h, full) && d < DESC_CNT && h.free[d] != []
    requires Page(h.free[d][0]) in h.arenas && h.arenas[Page(h.free[d][0])].freeCnt > 0
    ensures var (r, b) := Pop(h, d, size);
      && r.mem == h.mem && r.used == h.used && b.Some? && b.value !in h.live && r.live == h.live[b.value := size]
      && forall q :: q in h.arenas ==>
        q in r.arenas && r.arenas[q].desc == h.arenas[q].desc && Span(r.arenas[q]) == Span(h.arenas[q])
  {
    FrontOk(h, d, full);
    hide Almost, Page, IsBlock;
  }

  lemma NewArenaGives(h: Heap, d: nat, p: nat)
    requires Good(h) && d < DESC_CNT && AllAre(h.used, p, 1, false)
    ensures var r := NewArena(h, d, p);
      && r.mem == h.mem && |r.used| == |h.used| && r.live == h.live
      && (forall q :: q in h.arenas ==> q in r.arenas && r.arenas[q] == h.arenas[q])
  {
    NewPage(h, p, Arena(Some(d), PerArena(d)));
    hide Almost, Page;
  }

  lemma ReuseGives(h: Heap, d: nat, size: nat)
    requires Good(h) && d < DESC_CNT && 0 < size <= BlockSize(d) && h.free[d] != []
    ensures var (r, b) := MallocSmall(h, d, size); Good(r) && Gives(h, r, b, size)
  {
    PopKeeps(h, d, size, None);
    PopGives(h, d, size, None);
    hide Almost, Page, Span, Pop;
  }

  lemma CarveGives(h: Heap, d: nat, size: nat, p: nat)
    requires Good(h) && d < DESC_CNT && 0 < size <= BlockSize(d) && h.free[d] == [] && Scan(h.used, 0, 1) == Some(p)
    ensures var (r, b) := MallocSmall(h, d, size); Good(r) && Gives(h, r, b, size)
  {
    NewArenaKeeps(h, d, p);
    NewArenaGives(h, d, p);
    PopKeeps(NewArena(h, d, p), d, size, Some(p));
    PopGives(NewArena(h, d, p), d, size, Some(p));
    hide Almost, Page, Span, Pop, NewArena;
  }

  lemma MallocSmallGives(h: Heap, d: nat, size: nat)
    requires Good(h) && d < DESC_CNT && 0 < size <= BlockSize(d)
    ensures var (r, b) := MallocSmall(h, d, size); Good(r) && Gives(h, r, b, size)
  {
    if h.free[d] != [] {
      ReuseGives(h, d, size);
    } else if Scan(h.used, 0, 1).Some? {
      CarveGives(h, d, size, Scan(h.used, 0, 1).value);
    }
  }

  lemma TakeBigGives(h: Heap, p: nat, cnt: nat, size: nat)
    requires Good(h) && cnt >= 1 && AllAre(h.used, p, cnt, false) && 0 < size <= cnt * PGSIZE - HEADER
    ensures var r := TakePages(h, p, Arena(None, cnt)).(live := h.live[Big(p) := size]);
      Good(r) && Gives(h, r, Some(Big(p)), size)
  {
    TakeBigKeeps(h, p, cnt, size);
    NewPage(h, p, Arena(None, cnt));
    BigPlace(p);
    hide Almost, Page, Big;
  }

  lemma UsableFits(size: nat)
    requires 0 < size < WORD && PageCount(size) > 0
    ensures 0 < Usable(size) <= PageCount(size) * PGSIZE - HEADER
    ensures !Fits(size) ==> PageCount(size) == 1
  {
    PageCountFits(size);
  }

  lemma MallocBigGives(h: Heap, size: nat)
    requires Good(h) && 0 < size < WORD && DescFor(size, 0) == DESC_CNT
    ensures var (r, b) := MallocBig(h, size); Good(r) && Gives(h, r, b, Usable(size))
  {
    var cnt := PageCount(size);
    if cnt > 0 && Scan(h.used, 0, cnt).Some? {
      UsableFits(size);
      hide Almost, Page, Big, PageCount, Usable, TakePages, Gives;
      TakeBigGives(h, Scan(h.used, 0, cnt).value, cnt, Usable(size));
    } else {
      hide Almost, Page, PageCount;
    }
  }

  /** malloc keeps the heap in order, gives a new block or leaves all as it was, and moves
      and overwrites nothing. */
  lemma MallocKeeps(h: Heap, size: nat)
    requires Good(h) && size < WORD
    ensures var (r, b) := Malloc(h, size); Good(r) && Gives(h, r, b, Usable(size))
  {
    var d := DescFor(size, 0);
    if size > 0 {
      if d == DESC_CNT {
        hide Almost, Page, PageCount, Gives, MallocBig, Usable;
        MallocBigGives(h, size);
      } else {
        SmallFits(d, size);
        hide Almost, Page, PageCount, Gives, MallocSmall;
        MallocSmallGives(h, d, size);
      }
    } else {
      hide Almost, Page;
    }
  }

  lemma SmallFits(d: nat, size: nat)
    requires d < DESC_CNT && size <= BlockSize(d)
    ensures Fits(size)
  {
    Sizes(d);
  }

  /** When realloc copies, it copies no more than the new block holds. */
  lemma MoveFits(h: Heap, m: Heap, b: Option<Addr>, nb: Option<Addr>, size: nat)
    requires Good(h) && 0 < size < WORD && (b.Some? ==> b.value in h.live) && CopyFits(h, b, size)
    requires (m, nb) == Malloc(h, size)
    ensures Good(m) && Gives(h, m, nb, Usable(size))
    ensures b.Some? && nb.Some? ==>
      b.value in m.live && nb.value in m.live && b.value != nb.value
      && Min(size, Room(m.arenas[Page(b.value)])) <= m.live[nb.value]
  {
    MallocKeeps(h, size);
    if b.Some? && nb.Some? {
      LiveIsSlot(h, b.value);
      hide Almost, Page, IsBlock, BlockSize, Malloc, PageCount, Slot;
      assert Room(m.arenas[Page(b.value)]) == Room(h.arenas[Page(b.value)]);
    }
  }

  lemma WrapsToOnePage(h: Heap, size: nat)
    requires Good(h) && 0 < size < WORD && !Fits(size) && Malloc(h, size).1.Some?
    ensures PageCount(size) == 1
  {
    TooBig(size);
    UsableFits(size);
    hide Almost;
  }

  // ---------- places are apart ----------

  predicate Apart(a: Addr, n: int, c: Addr, m: int) {
    a + n <= c || c + m <= a
  }

  lemma IndexApart(p: nat, d: nat, i: nat, j: nat)
    requires i < j
    ensures Block(p, d, i) + BlockSize(d) <= Block(p, d, j)
  {
    Larger(j - i, BlockSize(d));
    assert (j - i) * BlockSize(d) == j * BlockSize(d) - i * BlockSize(d);
  }

  /** Two slots, live or free, never overlap. */
  lemma SlotsApart(h: Heap, full: Option<nat>, b: Addr, c: Addr)
    requires Almost(h, full) && Slot(h.arenas, b) && Slot(h.arenas, c) && b != c
    ensures Apart(b, Room(h.arenas[Page(b)]), c, Room(h.arenas[Page(c)]))
  {
    SlotInArena(h, full, b);
    SlotInArena(h, full, c);
    if Page(b) == Page(c) {
      SamePageApart(h.arenas[Page(b)], b, c);
    } else {
      assert Page(b) in Groups(h.arenas) && Page(c) in Groups(h.arenas);
    }
  }

  lemma SamePageApart(a: Arena, b: Addr, c: Addr)
    requires a.desc.Some? ==> a.desc.value < DESC_CNT
    requires Page(b) == Page(c) && OfArena(a, b) && OfArena(a, c) && b != c
    ensures Apart(b, Room(a), c, Room(a))
  {
    if a.desc.Some? {
      var d := a.desc.value;
      BlockBack(d, b);
      BlockBack(d, c);
      if Index(d, b) < Index(d, c) {
        IndexApart(Page(b), d, Index(d, b), Index(d, c));
      } else if Index(d, c) < Index(d, b) {
        IndexApart(Page(b), d, Index(d, c), Index(d, b));
      }
    } else {
      BigBack(b);
      BigBack(c);
    }
  }

  lemma LiveIsSlot(h: Heap, b: Addr)
    requires Good(h) && b in h.live
    ensures Page(b) in h.arenas
    ensures h.arenas[Page(b)].desc.Some? ==> h.arenas[Page(b)].desc.value < DESC_CNT
    ensures Slot(h.arenas, b) && 0 < h.live[b] <= Room(h.arenas[Page(b)])
  {
    hide Tally, CountOk, Tiled;
  }

  lemma LivePages(h: Heap, b: Addr, k: Addr)
    requires Good(h) && b in h.live && b <= k < b + Room(h.arenas[Page(b)])
    ensures Page(k) < |h.used| && h.used[Page(k)]
  {
    LiveIsSlot(h, b);
    SlotInArena(h, None, b);
    hide ListsOk, CountsOk, LiveOk, IsBlock, BlockSize;
    assert Covers(Groups(h.arenas), Page(b), Page(k));
  }

  lemma ApartFromLive(h: Heap, b: Addr)
    requires Good(h) && b in h.live
    ensures forall c :: c in h.live && c != b ==>
      Slot(h.arenas, c) && Apart(b, Room(h.arenas[Page(b)]), c, Room(h.arenas[Page(c)]))
  {
    forall c | c in h.live && c != b
      ensures Slot(h.arenas, c) && Apart(b, Room(h.arenas[Page(b)]), c, Room(h.arenas[Page(c)]))
    {
      LiveIsSlot(h, b);
      LiveIsSlot(h, c);
      SlotsApart(h, None, b, c);
    }
  }

  lemma ApartFromFree(h: Heap, b: Addr)
    requires Good(h) && b in h.live
    ensures forall d, c :: 0 <= d < DESC_CNT && c in h.free[d] ==>
      c !in h.live && Apart(b, Room(h.arenas[Page(b)]), c, BlockSize(d))
  {
    forall d, c | 0 <= d < DESC_CNT && c in h.free[d]
      ensures c !in h.live && Apart(b, Room(h.arenas[Page(b)]), c, BlockSize(d))
    {
      LiveIsSlot(h, b);
      FreeIsSlot(h, d, c);
      SlotsApart(h, None, b, c);
    }
  }

  lemma ApartFromHeaders(h: Heap, b: Addr)
    requires Good(h) && b in h.live
    ensures forall p :: p in h.arenas ==> Apart(b, Room(h.arenas[Page(b)]), p * PGSIZE, HEADER)
  {
    forall p | p in h.arenas
      ensures Apart(b, Room(h.arenas[Page(b)]), p * PGSIZE, HEADER)
    {
      LiveIsSlot(h, b);
      HeaderApart(h, b, p);
    }
  }

  lemma LiesInUse(h: Heap, b: Addr)
    requires Good(h) && b in h.live
    ensures forall k :: b <= k < b + Room(h.arenas[Page(b)]) ==> Page(k) < |h.used| && h.used[Page(k)]
  {
    forall k | b <= k < b + Room(h.arenas[Page(b)])
      ensures Page(k) < |h.used| && h.used[Page(k)]
    {
      LivePages(h, b, k);
    }
  }

  /** In every state: a live block offers at least what was requested, lies in pages that are
      in use, and is apart from every other live block, every free block and every arena
      header. */
  lemma LiveBlocks(h: Heap, b: Addr)
    requires Good(h) && b in h.live
    ensures Slot(h.arenas, b)
    ensures var room := Room(h.arenas[Page(b)]);
      && 0 < h.live[b] <= room
      && (forall k :: b <= k < b + room ==> Page(k) < |h.used| && h.used[Page(k)])
      && (forall c :: c in h.live && c != b ==> Slot(h.arenas, c) && Apart(b, room, c, Room(h.arenas[Page(c)])))
      && (forall d, c :: 0 <= d < DESC_CNT && c in h.free[d] ==> c !in h.live && Apart(b, room, c, BlockSize(d)))
      && (forall p :: p in h.arenas ==> Apart(b, room, p * PGSIZE, HEADER))
  {
    LiveIsSlot(h, b);
    LiesInUse(h, b);
    ApartFromLive(h, b);
    ApartFromFree(h, b);
    ApartFromHeaders(h, b);
    hide Almost, Page, IsBlock, BlockSize, Apart, Slot, Room;
  }

  lemma FreeIsSlot(h: Heap, d: nat, c: Addr)
    requires Good(h) && d < DESC_CNT && c in h.free[d]
    ensures InArena(h.arenas, d, c) && c !in h.live && Slot(h.arenas, c)
  {
    assert multiset(h.free[d])[c] == One(InArena(h.arenas, d, c) && c !in h.live);
  }

  lemma HeaderApart(h: Heap, b: Addr, p: nat)
    requires Good(h) && Slot(h.arenas, b) && p in h.arenas
    ensures Apart(b, Room(h.arenas[Page(b)]), p * PGSIZE, HEADER)
  {
    SlotInArena(h, None, b);
    assert p in Groups(h.arenas) && Page(b) in Groups(h.arenas);
  }

  // ---------- free ----------

  lemma FreeKeeps(h: Heap, b: Addr)
    requires Good(h) && b in h.live
    ensures Good(FreeBlock(h, b))
  {
    var p := Page(b);
    if h.arenas[p].desc.None? {
      DropBigKeeps(h, b);
    } else {
      var d := h.arenas[p].desc.value;
      PushKeeps(h, d, b);
      hide Push, Dismantle;
      var h' := Push(h, d, b);
      if h'.arenas[p].freeCnt >= PerArena(d) {
        DismantleKeeps(h', d, p);
      } else {
        NotFull(h', d, p);
      }
    }
  }

  lemma NotFull(h: Heap, d: nat, p: nat)
    requires Almost(h, Some(p)) && d < DESC_CNT && p in h.arenas
    requires h.arenas[p].desc == Some(d) && h.arenas[p].freeCnt < PerArena(d)
    ensures Good(h)
  {
    forall q | q in h.arenas && h.arenas[q].desc.Some?
      ensures CountOk(h.arenas[q], h.free[h.arenas[q].desc.value], q, false)
    {
      assert CountOk(h.arenas[q], h.free[h.arenas[q].desc.value], q, q == p);
    }
  }

  // ---------- contents ----------

  ghost predicate SameSlice(m: seq<Byte>, m': seq<Byte>, x: Addr, n: int) {
    |m'| == |m| && forall k :: 0 <= k < |m| && x <= k < x + n ==> m'[k] == m[k]
  }

  /** Block x stays live, where it is, as large as it is, with all its bytes. */
  ghost predicate Same(h: Heap, r: Heap, x: Addr)
    requires Good(h) && Good(r) && x in h.live
  {
    && |r.mem| == |h.mem|
    && x in r.live && r.live[x] == h.live[x]
    && Room(r.arenas[Page(x)]) == Room(h.arenas[Page(x)])
    && SameSlice(h.mem, r.mem, x, Room(h.arenas[Page(x)]))
  }

  lemma PagesApart(h: Heap, full: Option<nat>, x: Addr, p: nat)
    requires Almost(h, full) && Slot(h.arenas, x) && p in h.arenas && Page(x) != p
    ensures Apart(x, Room(h.arenas[Page(x)]), p * PGSIZE, Span(h.arenas[p]) * PGSIZE)
  {
    SlotInArena(h, full, x);
    assert p in Groups(h.arenas) && Page(x) in Groups(h.arenas);
  }

  lemma PushLeaves(h: Heap, d: nat, b: Addr, x: Addr)
    requires Good(h) && b in h.live && d < DESC_CNT && h.arenas[Page(b)].desc == Some(d)
    requires x in h.live && x != b && b + BlockSize(d) <= |h.mem|
    ensures var r := Push(h, d, b);
      && |r.mem| == |h.mem| && x in r.live && r.live[x] == h.live[x]
      && Page(x) in r.arenas && r.arenas[Page(x)].desc == h.arenas[Page(x)].desc
      && Span(r.arenas[Page(x)]) == Span(h.arenas[Page(x)])
      && SameSlice(h.mem, r.mem, x, Room(h.arenas[Page(x)]))
  {
    LiveIsSlot(h, b);
    LiveIsSlot(h, x);
    SlotsApart(h, None, b, x);
    hide Almost, Page, IsBlock, BlockSize;
  }

  lemma DropLeaves(h: Heap, full: Option<nat>, p: nat, x: Addr)
    requires Almost(h, full) && p in h.arenas && Slot(h.arenas, x) && Page(x) != p
    ensures p + Span(h.arenas[p]) <= |h.used|
    ensures var r := DropPages(h, p);
      && |r.mem| == |h.mem| && r.live == h.live
      && Page(x) in r.arenas && r.arenas[Page(x)] == h.arenas[Page(x)]
      && SameSlice(h.mem, r.mem, x, Room(h.arenas[Page(x)]))
  {
    DropTiles(h, full, p);
    PagesApart(h, full, x, p);
    hide Almost, Page, IsBlock, BlockSize;
  }

  lemma FreeBigLeaves(h: Heap, b: Addr, x: Addr)
    requires Good(h) && b in h.live && x in h.live && x != b && h.arenas[Page(b)].desc.None?
    ensures Good(FreeBlock(h, b)) && Same(h, FreeBlock(h, b), x)
  {
    FreeKeeps(h, b);
    LiveIsSlot(h, b);
    LiveIsSlot(h, x);
    if Page(x) == Page(b) {
      SamePageApart(h.arenas[Page(b)], b, x);
      BigBack(b);
      BigBack(x);
    }
    DropLeaves(h, None, Page(b), x);
    hide Almost, Page, IsBlock, BlockSize;
  }

  /** free of a small block: the heap after the block is pushed, and what is left to do. */
  lemma Pushed(h: Heap, b: Addr, d: nat) returns (h': Heap)
    requires Good(h) && b in h.live && d < DESC_CNT && h.arenas[Page(b)].desc == Some(d)
    ensures d < |h.free| && Page(b) in h.arenas && b + BlockSize(d) <= |h.mem| && h' == Push(h, d, b)
    ensures Almost(h', Some(Page(b))) && d < |h'.free| && Page(b) in h'.arenas && h'.arenas[Page(b)].desc == Some(d)
    ensures Page(b) + 1 <= |h'.used| && |h'.mem| == |h'.used| * PGSIZE
    ensures FreeBlock(h, b) ==
      if h'.arenas[Page(b)].freeCnt >= PerArena(d) then Dismantle(h', d, Page(b)) else h'
  {
    hide Tally, CountOk, Tiled, IsBlock, BlockSize;
    PushKeeps(h, d, b);
    h' := Push(h, d, b);
    PageIn(h', Page(b));
  }

  lemma PageIn(h: Heap, p: nat)
    requires Almost(h, Some(p)) && p in h.arenas && h.arenas[p].desc.Some?
    ensures p + 1 <= |h.used| && |h.mem| == |h.used| * PGSIZE
  {
    hide Tally, CountOk;
    assert p in Groups(h.arenas);
  }

  lemma AlmostSlot(h: Heap, full: Option<nat>, x: Addr)
    requires Almost(h, full) && x in h.live
    ensures DescsOk(h.arenas) && Slot(h.arenas, x)
  {
    hide Tally, CountOk, Tiled;
  }

  lemma FreeSmallLeaves(h: Heap, b: Addr, x: Addr, d: nat)
    requires Good(h) && b in h.live && x in h.live && x != b && d < DESC_CNT && h.arenas[Page(b)].desc == Some(d)
    ensures Good(FreeBlock(h, b)) && Same(h, FreeBlock(h, b), x)
  {
    hide Push, Dismantle, FreeBlock, Almost, Slot, Page, IsBlock, BlockSize;
    FreeKeeps(h, b);
    LiveIsSlot(h, x);
    var h' := Pushed(h, b, d);
    PushLeaves(h, d, b, x);
    if h'.arenas[Page(b)].freeCnt >= PerArena(d) {
      NobodyLives(h', d, Page(b));
      AlmostSlot(h', Some(Page(b)), x);
      DismantleLeaves(h', d, Page(b), x);
    }
  }

  lemma DismantleLeaves(h: Heap, d: nat, p: nat, x: Addr)
    requires Almost(h, Some(p)) && d < DESC_CNT && p in h.arenas && Slot(h.arenas, x) && Page(x) != p
    ensures p + Span(h.arenas[p]) <= |h.used|
    ensures var r := Dismantle(h, d, p);
      && |r.mem| == |h.mem| && r.live == h.live
      && Page(x) in r.arenas && r.arenas[Page(x)] == h.arenas[Page(x)]
      && SameSlice(h.mem, r.mem, x, Room(h.arenas[Page(x)]))
  {
    DropLeaves(h, Some(p), p, x);
    hide Almost, Page, IsBlock, BlockSize, WithoutBlocks;
  }

  /** free touches no other live block. */
  lemma FreeLeaves(h: Heap, b: Addr, x: Addr)
    requires Good(h) && b in h.live && x in h.live && x != b
    ensures Good(FreeBlock(h, b)) && Same(h, FreeBlock(h, b), x)
    ensures FreeBlock(h, b).live == h.live - {b}
  {
    if h.arenas[Page(b)].desc.None? {
      FreeBigLeaves(h, b, x);
    } else {
      FreeSmallLeaves(h, b, x, h.arenas[Page(b)].desc.value);
    }
  }

  // ---------- realloc ----------

  lemma CopyKeeps(h: Heap, nb: Addr, b: Addr, n: nat)
    requires Good(h) && b + n <= |h.mem| && nb + n <= |h.mem|
    ensures Good(h.(mem := Copy(h.mem, nb, b, n)))
  {
    hide Tally, CountOk, Tiled;
  }

  lemma CopyLeaves(h: Heap, nb: Addr, b: Addr, n: nat, x: Addr)
    requires Good(h) && b + n <= |h.mem| && nb in h.live && x in h.live && x != nb
    requires n <= Room(h.arenas[Page(nb)]) && nb + n <= |h.mem|
    ensures var r := h.(mem := Copy(h.mem, nb, b, n)); Good(r) && Same(h, r, x)
  {
    CopyKeeps(h, nb, b, n);
    LiveIsSlot(h, nb);
    LiveIsSlot(h, x);
    SlotsApart(h, None, nb, x);
    hide Almost, Page, IsBlock, BlockSize;
  }

  /** The first bytes of block b of h are the first bytes of block nb of r. */
  ghost predicate SameBytes(h: Heap, b: Addr, r: Heap, nb: Addr, n: nat) {
    && b + n <= |h.mem| && nb + n <= |r.mem|
    && h.mem[b..b + n] == r.mem[nb..nb + n]
  }

  lemma CopiedBytes(mem: seq<Byte>, r: seq<Byte>, b: Addr, nb: Addr, n: nat, room: nat)
    requires b + n <= |mem| && nb + n <= |mem| && n <= room && SameSlice(Copy(mem, nb, b, n), r, nb, room)
    ensures mem[b..b + n] == r[nb..nb + n]
  {
    var c := Copy(mem, nb, b, n);
    assert c[nb..nb + n] == mem[b..b + n];
    assert r[nb..nb + n] == c[nb..nb + n];
  }

  /** The new block begins with what the old one held, as far as both reach; the old one is
      gone and no other is touched. */
  lemma MoveKeeps(h: Heap, b: Addr, nb: Addr, size: nat)
    requires Good(h) && b in h.live && nb in h.live && nb != b && Min(size, Room(h.arenas[Page(b)])) <= h.live[nb]
    ensures var r := Move(h, b, nb, size);
      && Good(r) && r.live == h.live - {b}
      && SameBytes(h, b, r, nb, Min(size, Room(h.arenas[Page(b)])))
      && (forall x :: x in h.live && x != b && x != nb ==> Same(h, r, x))
  {
    hide Almost, Page, IsBlock, BlockSize, FreeBlock, Copy, Min, Slot, OfArena;
    LiveIsSlot(h, b);
    LiveIsSlot(h, nb);
    SlotInArena(h, None, b);
    SlotInArena(h, None, nb);
    var room := Room(h.arenas[Page(nb)]);
    var n := Min(size, Room(h.arenas[Page(b)]));
    Smaller(size, Room(h.arenas[Page(b)]));
    var c := h.(mem := Copy(h.mem, nb, b, n));
    CopyKeeps(h, nb, b, n);
    FreeLeaves(c, b, nb);
    var r := FreeBlock(c, b);
    CopiedBytes(h.mem, r.mem, b, nb, n, room);
    forall x | x in h.live && x != b && x != nb
      ensures Same(h, r, x)
    {
      MoveLeaves(h, b, nb, n, x);
    }
  }

  lemma MoveLeaves(h: Heap, b: Addr, nb: Addr, n: nat, x: Addr)
    requires Good(h) && b in h.live && nb in h.live && x in h.live && nb != b && x != b && x != nb
    requires b + n <= |h.mem| && nb + n <= |h.mem| && n <= Room(h.arenas[Page(nb)])
    ensures Good(h.(mem := Copy(h.mem, nb, b, n)))
    ensures Good(FreeBlock(h.(mem := Copy(h.mem, nb, b, n)), b))
    ensures Same(h, FreeBlock(h.(mem := Copy(h.mem, nb, b, n)), b), x)
  {
    var c := h.(mem := Copy(h.mem, nb, b, n));
    CopyLeaves(h, nb, b, n, x);
    FreeLeaves(c, b, x);
    hide Almost, Page, FreeBlock, Copy;
    SameThen(h, c, FreeBlock(c, b), x);
  }

  lemma Smaller(a: nat, b: nat)
    ensures Min(a, b) <= a && Min(a, b) <= b
  {
  }

  lemma SameThen(h: Heap, m: Heap, r: Heap, x: Addr)
    requires Good(h) && Good(m) && Good(r) && x in h.live && Same(h, m, x) && Same(m, r, x)
    ensures Same(h, r, x)
  {
    hide Almost, Page, IsBlock, BlockSize;
  }

  lemma GivesSame(h: Heap, r: Heap, b: Option<Addr>, size: nat, x: Addr)
    requires Good(h) && Good(r) && Gives(h, r, b, size) && x in h.live
    ensures Same(h, r, x)
  {
    LiveIsSlot(h, x);
    hide Almost, Page, IsBlock, BlockSize;
  }

  /** realloc: on failure nothing changes; otherwise the block moves with its contents. */
  lemma ReallocKeeps(h: Heap, b: Option<Addr>, size: nat)
    requires Good(h) && (b.Some? ==> b.value in h.live) && CopyFits(h, b, size)
    ensures var (r, nb) := Realloc(h, b, size);
      && Good(r)
      && (size > 0 && nb.None? ==> r == h)
      && (size == 0 ==> r == Free(h, b) && nb.None?)
      && (nb.Some? ==> nb.value !in h.live)
      && (nb.Some? ==> r.live == (if b.Some? then h.live - {b.value} else h.live)[nb.value := Usable(size)])
      && (nb.Some? && b.Some? ==> SameBytes(h, b.value, r, nb.value, Min(size, Room(h.arenas[Page(b.value)]))))
      && (forall x :: x in h.live && b != Some(x) ==> Same(h, r, x))
  {
    if size == 0 {
      if b.Some? {
        FreeAll(h, b.value);
      }
    } else {
      MallocKeeps(h, size);
      var (m, nb) := Malloc(h, size);
      MoveFits(h, m, b, nb, size);
      ReallocMoves(h, m, b, nb, size);
    }
  }

  lemma FreeAll(h: Heap, b: Addr)
    requires Good(h) && b in h.live
    ensures Good(FreeBlock(h, b))
    ensures forall x :: x in h.live && x != b ==> Same(h, FreeBlock(h, b), x)
  {
    FreeKeeps(h, b);
    forall x | x in h.live && x != b
      ensures Same(h, FreeBlock(h, b), x)
    {
      FreeLeaves(h, b, x);
    }
  }

  /** Block nb of r begins with what block b of h held, up to size bytes. */
  ghost predicate Carries(h: Heap, b: Addr, r: Heap, nb: Addr, size: nat)
    requires Good(h) && b in h.live
  {
    SameBytes(h, b, r, nb, Min(size, Room(h.arenas[Page(b)])))
  }

  lemma ReallocMoves(h: Heap, m: Heap, b: Option<Addr>, nb: Option<Addr>, size: nat)
    requires Good(h) && Good(m) && Gives(h, m, nb, Usable(size)) && (b.Some? ==> b.value in h.live)
    requires b.Some? && nb.Some? ==> b.value in m.live && nb.value in m.live && Min(size, Room(m.arenas[Page(b.value)])) <= m.live[nb.value]
    ensures var r := if b.Some? && nb.Some? then Move(m, b.value, nb.value, size) else m;
      && Good(r)
      && (nb.Some? ==> r.live == (if b.Some? then h.live - {b.value} else h.live)[nb.value := Usable(size)])
      && (nb.Some? && b.Some? ==> Carries(h, b.value, r, nb.value, size))
      && (forall x :: x in h.live && b != Some(x) ==> Same(h, r, x))
  {
    hide Almost, Page, IsBlock, BlockSize, Move;
    if b.Some? && nb.Some? {
      MoveKeeps(m, b.value, nb.value, size);
      GivesSame(h, m, nb, Usable(size), b.value);
    }
    var r := if b.Some? && nb.Some? then Move(m, b.value, nb.value, size) else m;
    forall x | x in h.live && b != Some(x)
      ensures Same(h, r, x)
    {
      GivesSame(h, m, nb, Usable(size), x);
      if b.Some? && nb.Some? {
        SameThen(h, m, r, x);
      }
    }
  }

  lemma WriteKeeps(h: Heap, b: Addr, ofs: nat, data: seq<Byte>, x: Addr)
    requires Good(h) && b in h.live && ofs + |data| <= Room(h.arenas[Page(b)]) && x in h.live
    ensures Good(Write(h, b, ofs, data)) && Write(h, b, ofs, data).live == h.live
    ensures x != b ==> Same(h, Write(h, b, ofs, data), x)
  {
    LiveIsSlot(h, b);
    LiveIsSlot(h, x);
    SlotInArena(h, None, b);
    if x != b {
      SlotsApart(h, None, b, x);
    }
    hide Tally, CountOk, Tiled, Page, IsBlock, BlockSize;
  }

  // ---------- sequences of calls ----------

  datatype Call =
    | DoMalloc(size: nat)
    | DoFree(block: Option<Addr>)
    | DoRealloc(block: Option<Addr>, size: nat)
    | DoWrite(at: Addr, ofs: nat, data: seq<Byte>)

  /** Blocks passed in are live; a program writes inside its blocks. */
  ghost predicate Enabled(h: Heap, call: Call)
    requires Good(h)
  {
    match call
    case DoMalloc(size) => size < WORD
    case DoFree(b) => b.Some? ==> b.value in h.live
    case DoRealloc(b, size) => (b.Some? ==> b.value in h.live) && CopyFits(h, b, size)
    case DoWrite(b, ofs, data) => b in h.live && ofs + |data| <= Room(h.arenas[Page(b)])
  }

  function After(h: Heap, call: Call): Heap
    requires Good(h) && Enabled(h, call)
  {
    match call
    case DoMalloc(size) => Malloc(h, size).0
    case DoFree(b) => Free(h, b)
    case DoRealloc(b, size) => Realloc(h, b, size).0
    case DoWrite(b, ofs, data) => Write(h, b, ofs, data)
  }

  /** The call frees, resizes or writes to x. */
  predicate Addresses(call: Call, x: Addr) {
    match call
    case DoMalloc(_) => false
    case DoFree(b) => b == Some(x)
    case DoRealloc(b, _) => b == Some(x)
    case DoWrite(b, _, _) => b == x
  }

  lemma CallKeeps(h: Heap, call: Call)
    requires Good(h) && Enabled(h, call)
    ensures Good(After(h, call))
    ensures forall x :: x in h.live && !Addresses(call, x) ==> Same(h, After(h, call), x)
  {
    hide Almost, Page, Malloc, Move, FreeBlock;
    match call
    case DoMalloc(size) =>
      MallocKeeps(h, size);
      var (r, b) := Malloc(h, size);
      forall x | x in h.live
        ensures Same(h, r, x)
      {
        GivesSame(h, r, b, Usable(size), x);
      }
    case DoFree(b) =>
      if b.Some? {
        FreeAll(h, b.value);
      } else {
        Unchanged(h);
      }
    case DoRealloc(b, size) =>
      ReallocKeeps(h, b, size);
    case DoWrite(b, ofs, data) =>
      forall x | x in h.live
        ensures Good(Write(h, b, ofs, data)) && (x != b ==> Same(h, Write(h, b, ofs, data), x))
      {
        WriteKeeps(h, b, ofs, data, x);
      }
  }

  /** A run of calls. */
  ghost predicate IsRun(heaps: seq<Heap>, calls: seq<Call>) {
    && |heaps| == |calls| + 1
    && forall i :: 0 <= i < |calls| ==> Goes(heaps[i], calls[i], heaps[i + 1])
  }

  /** A call that fits the heap, and what it makes of it; nothing is said of a heap that is not
      in order, which `RunKeeps` shows never comes about. */
  ghost predicate Goes(h: Heap, call: Call, r: Heap) {
    Good(h) ==> Enabled(h, call) && r == After(h, call)
  }

  /** The pool of n pages before the first call. */
  function Boot(n: nat): Heap {
    Heap(seq(n, _ => false), map[], seq(DESC_CNT, _ => []), map[], seq(n * PGSIZE, _ => 0))
  }

  lemma BootKeeps(n: nat)
    ensures Good(Boot(n))
  {
    hide Page, IsBlock, BlockSize, Ofs;
    var h := Boot(n);
    assert Groups(h.arenas) == map[];
    assert forall i, p :: !Covers(Groups(h.arenas), p, i);
  }

  /** The heap is in order after every call of every run. */
  lemma {:induction false} RunKeeps(heaps: seq<Heap>, calls: seq<Call>, i: nat)
    requires IsRun(heaps, calls) && i < |heaps| && Good(heaps[0])
    ensures Good(heaps[i])
    decreases i
  {
    hide Almost;
    if i > 0 {
      RunKeeps(heaps, calls, i - 1);
      assert Goes(heaps[i - 1], calls[i - 1], heaps[i]);
      CallKeeps(heaps[i - 1], calls[i - 1]);
    }
  }

  lemma RunFromBoot(n: nat, heaps: seq<Heap>, calls: seq<Call>, i: nat)
    requires IsRun(heaps, calls) && i < |heaps| && heaps[0] == Boot(n)
    ensures Good(heaps[i])
  {
    BootKeeps(n);
    RunKeeps(heaps, calls, i);
  }

  /** Over every stretch of a run in which no call addresses live block x, x keeps its place,
      its size and every byte, whatever else is allocated, resized, written and freed. */
  lemma {:induction false} RunLeaves(heaps: seq<Heap>, calls: seq<Call>, i: nat, j: nat, x: Addr)
    requires IsRun(heaps, calls) && i <= j < |heaps| && Good(heaps[0]) && Good(heaps[i]) && x in heaps[i].live
    requires forall k :: i <= k < j ==> !Addresses(calls[k], x)
    ensures Good(heaps[j]) && Same(heaps[i], heaps[j], x)
    decreases j
  {
    hide Almost, Page;
    if i == j {
      Unchanged(heaps[i]);
    } else {
      RunLeaves(heaps, calls, i, j - 1, x);
      assert Goes(heaps[j - 1], calls[j - 1], heaps[j]);
      CallKeeps(heaps[j - 1], calls[j - 1]);
      SameThen(heaps[i], heaps[j - 1], heaps[j], x);
    }
  }

  lemma Unchanged(h: Heap)
    requires Good(h)
    ensures forall x :: x in h.live ==> Same(h, h, x)
  {
    hide Tally, CountOk, Tiled, Page;
  }

  /** When every block is freed, every page of the pool is free, there is no arena, and the
      free lists are empty. */
  lemma AllFreed(h: Heap)
    requires Good(h) && h.live == map[]
    ensures h.arenas == map[] && AllAre(h.used, 0, |h.used|, false)
    ensures forall d :: 0 <= d < DESC_CNT ==> h.free[d] == []
  {
    forall p | p in h.arenas
      ensures false
    {
      NoEmptyArena(h, p);
    }
    assert h.arenas == map[];
    assert Groups(h.arenas) == map[];
    NothingTiles(h.used);
    forall d | 0 <= d < DESC_CNT
      ensures h.free[d] == []
    {
      if h.free[d] != [] {
        FreeIsSlot(h, d, h.free[d][0]);
        assert false;
      }
    }
  }

  /** Every arena has a live block. */
  lemma NoEmptyArena(h: Heap, p: nat)
    requires Good(h) && p in h.arenas
    ensures exists b :: b in h.live && Page(b) == p
  {
    var a := h.arenas[p];
    if a.desc.None? {
      BigPlace(p);
      assert Big(p) in h.live;
    } else {
      var d := a.desc.value;
      assert CountOk(a, h.free[d], p, false);
      TallyAll(multiset(h.free[d]), p, d, PerArena(d));
      var i :| 0 <= i < PerArena(d) && Block(p, d, i) !in multiset(h.free[d]);
      var b := Block(p, d, i);
      BlockPlace(p, d, i);
      assert multiset(h.free[d])[b] == One(InArena(h.arenas, d, b) && b !in h.live);
    }
  }

  /** malloc of a size that fits fails if and only if the size is zero or the pages it needs
      are not free in a row: one for an empty free list, the rounded-up count for a big
      block. */
  lemma MallocFails(h: Heap, size: nat)
    requires Good(h) && size < WORD
    ensures var d := DescFor(size, 0);
      Malloc(h, size).1.None? <==>
        || size == 0
        || (d < DESC_CNT && h.free[d] == [] && forall i {:trigger AllAre(h.used, i, 1, false)} :: 0 <= i ==> !AllAre(h.used, i, 1, false))
        || (d == DESC_CNT && (PageCount(size) == 0 ||
            forall i {:trigger AllAre(h.used, i, PageCount(size), false)} :: 0 <= i ==> !AllAre(h.used, i, PageCount(size), false)))
  {
    hide Almost, Page;
  }

  /** In 32-bit arithmetic a block that malloc returns is large enough if and only if the
      size plus the header does not wrap around. */
  lemma MallocIsLargeEnough(h: Heap, size: nat)
    requires Good(h) && size < WORD && Malloc(h, size).1.Some?
    ensures var (r, b) := Malloc(h, size);
      && Page(b.value) in r.arenas
      && (r.arenas[Page(b.value)].desc.Some? ==> r.arenas[Page(b.value)].desc.value < DESC_CNT)
      && (Room(r.arenas[Page(b.value)]) >= size <==> Fits(size))
  {
    if Fits(size) {
      MallocKeeps(h, size);
      var (r, b) := Malloc(h, size);
      LiveIsSlot(r, b.value);
    } else {
      Sizes(6);
      TooBig(size);
      PageCountFits(size);
      hide Almost;
      BigPlace(Scan(h.used, 0, PageCount(size)).value);
    }
  }

  lemma TooBig(size: nat)
    requires size > 2048
    ensures DescFor(size, 0) == DESC_CNT
  {
    if DescFor(size, 0) < DESC_CNT {
      Sizes(DescFor(size, 0));
    }
  }

  /** A request of nearly all of memory wraps around, and is given a single page. */
  lemma ShortBlock(n: nat)
    requires n >= 1
    ensures Good(Boot(n))
    ensures var (r, b) := Malloc(Boot(n), 0xFFFF_FFFF);
      b == Some(Big(0)) && 0 in r.arenas && Room(Arena(None, 1)) == 4084 && r.arenas[0] == Arena(None, 1)
  {
    BootKeeps(n);
    TooBig(0xFFFF_FFFF);
    assert PageCount(0xFFFF_FFFF) == 1;
    assert AllAre(Boot(n).used, 0, 1, false);
    assert Scan(Boot(n).used, 0, 1) == Some(0);
    hide Almost;
  }

  /** The copy of realloc stays within the new block if and only if the size does not wrap
      around with the header or the old block is no larger than one page holds. */
  lemma ReallocCopies(h: Heap, b: Addr, size: nat)
    requires Good(h) && b in h.live && 0 < size < WORD && Malloc(h, size).1.Some?
    ensures var (r, nb) := Malloc(h, size);
      && Good(r) && Slot(r.arenas, b) && Slot(r.arenas, nb.value)
      && (Min(size, Room(r.arenas[Page(b)])) <= Room(r.arenas[Page(nb.value)]) <==> CopyFits(h, Some(b), size))
  {
    var (r, nb) := Malloc(h, size);
    MallocKeeps(h, size);
    LiveIsSlot(h, b);
    LiveIsSlot(r, b);
    LiveIsSlot(r, nb.value);
    MallocIsLargeEnough(h, size);
    if !Fits(size) {
      WrapsToOnePage(h, size);
      TooBig(size);
      OnePage(h, size);
    }
    hide Almost, IsBlock, BlockSize, Malloc, PageCount, Page;
  }

  lemma OnePage(h: Heap, size: nat)
    requires Good(h) && 0 < size < WORD && DescFor(size, 0) == DESC_CNT && PageCount(size) == 1
    requires Malloc(h, size).1.Some?
    ensures var (r, b) := Malloc(h, size); Page(b.value) in r.arenas && r.arenas[Page(b.value)] == Arena(None, 1)
  {
    BigPlace(Scan(h.used, 0, 1).value);
    hide Almost;
  }
}
