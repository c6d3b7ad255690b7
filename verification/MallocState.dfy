/** The block allocator over the page allocator: arenas of equal blocks, big blocks of whole
    pages, and what malloc, free and realloc do to them. */
module MallocState {
  import opened Common
  import opened Bitmap

  const PGSIZE := 4096
  const HEADER := 12 // sizeof (struct arena)
  const DESC_CNT := 7
  const WORD := 0x1_0000_0000
  const FREED: Byte := 0xcc

  /** Addresses count from the base of the kernel pool. */
  type Addr = nat

  /** An arena header.  Without a descriptor it heads a big block of freeCnt pages. */
  datatype Arena = Arena(desc: Option<nat>, freeCnt: nat)

  /** `arenas` is keyed by page, `free` holds the free list of each descriptor.  `live` is
      history: the blocks returned and not yet freed, with the sizes requested. */
  datatype Heap = Heap(
    used: seq<bool>,
    arenas: map<nat, Arena>,
    free: seq<seq<Addr>>,
    live: map<Addr, nat>,
    mem: seq<Byte>)

  // ---------- geometry ----------

  function BlockSize(d: nat): nat {
    if d == 0 then 16 else 2 * BlockSize(d - 1)
  }

  lemma {:induction false} Sizes(d: nat)
    requires d < DESC_CNT
    ensures BlockSize(d) == [16, 32, 64, 128, 256, 512, 1024][d]
  {
    if d > 0 {
      Sizes(d - 1);
    }
  }

  /** blocks_per_arena. */
  function PerArena(d: nat): nat
    requires d < DESC_CNT
  {
    Sizes(d);
    (PGSIZE - HEADER) / BlockSize(d)
  }

  /** arena_to_block. */
  function Block(p: nat, d: nat, i: nat): Addr {
    p * PGSIZE + HEADER + i * BlockSize(d)
  }

  /** pg_no and pg_ofs. */
  function Page(b: Addr): nat { b / PGSIZE }

  function Ofs(b: Addr): nat { b % PGSIZE }

  /** The address of a big block on page p. */
  function Big(p: nat): Addr { p * PGSIZE + HEADER }

  /** What block_to_arena asserts of a block of descriptor d, with its index in range. */
  predicate IsBlock(d: nat, b: Addr)
    requires d < DESC_CNT
  {
    Sizes(d);
    Ofs(b) >= HEADER && (Ofs(b) - HEADER) % BlockSize(d) == 0 && (Ofs(b) - HEADER) / BlockSize(d) < PerArena(d)
  }

  function Index(d: nat, b: Addr): nat
    requires d < DESC_CNT && IsBlock(d, b)
  {
    Sizes(d);
    (Ofs(b) - HEADER) / BlockSize(d)
  }

  lemma Larger(a: int, s: nat)
    requires a >= 1
    ensures a * s >= s
  {
  }

  lemma DivBack(i: nat, s: nat)
    requires s > 0
    ensures (i * s) % s == 0 && (i * s) / s == i
  {
    var q, r := (i * s) / s, (i * s) % s;
    assert i * s == q * s + r;
    assert (i - q) * s == r && (q - i) * s == -r;
    if i > q {
      Larger(i - q, s);
    } else if i < q {
      Larger(q - i, s);
    }
  }

  lemma DivRoom(i: nat, s: nat, m: nat)
    requires s > 0 && i < m / s
    ensures i * s + s <= m
  {
    var n := m / s;
    assert n * s + m % s == m;
    assert (n - i) * s == n * s - i * s;
    Larger(n - i, s);
  }

  lemma PageOfs(p: nat, o: nat)
    requires o < PGSIZE
    ensures Page(p * PGSIZE + o) == p && Ofs(p * PGSIZE + o) == o
  {
  }

  lemma ArenaRoom(d: nat)
    requires d < DESC_CNT
    ensures BlockSize(d) > 0 && PerArena(d) == (PGSIZE - HEADER) / BlockSize(d)
  {
    Sizes(d);
  }

  lemma BlockPlace(p: nat, d: nat, i: nat)
    requires d < DESC_CNT && i < PerArena(d)
    ensures IsBlock(d, Block(p, d, i)) && Page(Block(p, d, i)) == p && Index(d, Block(p, d, i)) == i
    ensures Ofs(Block(p, d, i)) + BlockSize(d) <= PGSIZE
  {
    hide BlockSize, PerArena, Page, Ofs, IsBlock, Index;
    ArenaRoom(d);
    var s := BlockSize(d);
    var o := i * s;
    DivBack(i, s);
    DivRoom(i, s, PGSIZE - HEADER);
    PageOfs(p, HEADER + o);
    assert Block(p, d, i) == p * PGSIZE + (HEADER + o);
    PlaceOf(d, Block(p, d, i), o, i);
  }

  lemma PlaceOf(d: nat, b: Addr, o: nat, i: nat)
    requires d < DESC_CNT && Ofs(b) == HEADER + o && BlockSize(d) > 0
    requires o % BlockSize(d) == 0 && o / BlockSize(d) == i && i < PerArena(d)
    ensures IsBlock(d, b) && Index(d, b) == i
  {
  }

  lemma BlockBack(d: nat, b: Addr)
    requires d < DESC_CNT && IsBlock(d, b)
    ensures Index(d, b) < PerArena(d) && b == Block(Page(b), d, Index(d, b))
  {
    Sizes(d);
  }

  /** What block_to_arena asserts of the position of a block of descriptor d, in 32-bit
      arithmetic. */
  predicate Accepted(d: nat, b: Addr)
    requires d < DESC_CNT
  {
    Sizes(d);
    (Ofs(b) - HEADER) % WORD % BlockSize(d) == 0
  }

  /** The assertions accept every block, and of the other pointers those alone that are aligned
      but too close to the end of the page, such as offset 4092 for blocks of 16 bytes. */
  lemma AcceptedBlocks(d: nat, b: Addr)
    requires d < DESC_CNT
    ensures IsBlock(d, b) <==> Accepted(d, b) && Ofs(b) + BlockSize(d) <= PGSIZE
    ensures Accepted(0, 4092) && !IsBlock(0, 4092)
  {
    Sizes(d);
    Sizes(0);
    AlignedAt(Ofs(b), BlockSize(d));
    AlignedAt(4092, 16);
    assert Ofs(4092) == 4092;
    hide BlockSize, Ofs;
  }

  lemma AlignedAt(o: nat, s: nat)
    requires o < PGSIZE && s in {16, 32, 64, 128, 256, 512, 1024}
    ensures (o - HEADER) % WORD % s == 0 <==> o >= HEADER && (o - HEADER) % s == 0
    ensures (o - HEADER) % s == 0 && o >= HEADER ==> ((o - HEADER) / s < (PGSIZE - HEADER) / s <==> o + s <= PGSIZE)
  {
  }

  lemma BigPlace(p: nat)
    ensures Page(Big(p)) == p && Ofs(Big(p)) == HEADER
  {
  }

  lemma BigBack(b: Addr)
    requires Ofs(b) == HEADER
    ensures b == Big(Page(b))
  {
  }

  /** Pages of an arena. */
  function Span(a: Arena): nat {
    if a.desc.Some? then 1 else a.freeCnt
  }

  /** The bytes that a block of this arena offers: block_size. */
  function Room(a: Arena): int
    requires a.desc.Some? ==> a.desc.value < DESC_CNT
  {
    if a.desc.Some? then BlockSize(a.desc.value) else PGSIZE * a.freeCnt - HEADER
  }

  /** b is where a block of arena a may be, on its page. */
  predicate OfArena(a: Arena, b: Addr)
    requires a.desc.Some? ==> a.desc.value < DESC_CNT
  {
    if a.desc.Some? then IsBlock(a.desc.value, b) else Ofs(b) == HEADER
  }

  function Groups(arenas: map<nat, Arena>): map<nat, nat> {
    map p | p in arenas :: Span(arenas[p])
  }

  // ---------- the invariant ----------

  ghost predicate DescsOk(arenas: map<nat, Arena>) {
    forall p :: p in arenas && arenas[p].desc.Some? ==> arenas[p].desc.value < DESC_CNT
  }

  ghost predicate InArena(arenas: map<nat, Arena>, d: nat, b: Addr)
    requires d < DESC_CNT
  {
    Page(b) in arenas && arenas[Page(b)].desc == Some(d) && IsBlock(d, b)
  }

  /** The free list of d holds, once each, exactly the blocks of its arenas that are not live. */
  ghost predicate ListsOk(arenas: map<nat, Arena>, free: seq<seq<Addr>>, live: map<Addr, nat>) {
    && |free| == DESC_CNT
    && forall d, b {:trigger multiset(free[d])[b]} {:trigger InArena(arenas, d, b)} ::
      0 <= d < DESC_CNT && b >= 0 ==> multiset(free[d])[b] == One(InArena(arenas, d, b) && b !in live)
  }

  /** How many of the first n blocks of page p are in the list. */
  ghost function Tally(list: multiset<Addr>, p: nat, d: nat, n: nat): nat {
    if n == 0 then 0 else Tally(list, p, d, n - 1) + One(Block(p, d, n - 1) in list)
  }

  /** free_cnt counts the blocks on the free list, and no arena is entirely free; `full`
      exempts the arena in hand. */
  ghost predicate CountsOk(arenas: map<nat, Arena>, free: seq<seq<Addr>>, full: Option<nat>)
    requires DescsOk(arenas) && |free| == DESC_CNT
  {
    forall p :: p in arenas && arenas[p].desc.Some? ==> CountOk(arenas[p], free[arenas[p].desc.value], p, full == Some(p))
  }

  ghost predicate CountOk(a: Arena, list: seq<Addr>, p: nat, full: bool)
    requires a.desc.Some? && a.desc.value < DESC_CNT
  {
    && a.freeCnt == Tally(multiset(list), p, a.desc.value, PerArena(a.desc.value))
    && (full || a.freeCnt < PerArena(a.desc.value))
  }

  /** Live blocks lie in arenas and have at least the size requested; the block of a big
      arena is live. */
  ghost predicate LiveOk(arenas: map<nat, Arena>, live: map<Addr, nat>)
    requires DescsOk(arenas)
  {
    && (forall b :: b in live ==>
        Page(b) in arenas && OfArena(arenas[Page(b)], b) && 0 < live[b] <= Room(arenas[Page(b)]))
    && (forall b :: b >= 0 && Ofs(b) == HEADER && Page(b) in arenas && arenas[Page(b)].desc.None? ==> b in live)
  }

  ghost predicate Almost(h: Heap, full: Option<nat>) {
    && |h.mem| == |h.used| * PGSIZE
    && DescsOk(h.arenas)
    && Tiled(h.used, Groups(h.arenas))
    && ListsOk(h.arenas, h.free, h.live)
    && CountsOk(h.arenas, h.free, full)
    && LiveOk(h.arenas, h.live)
  }

  ghost predicate Good(h: Heap) {
    Almost(h, None)
  }

  // ---------- pages ----------

  /** palloc_get_multiple took the pages, and their first bytes become the header. */
  function TakePages(h: Heap, p: nat, a: Arena): Heap
    requires p + Span(a) <= |h.used|
  {
    h.(used := SetRange(h.used, p, Span(a), true), arenas := h.arenas[p := a])
  }

  function Fill(mem: seq<Byte>, from: nat, n: nat, v: Byte): (r: seq<Byte>)
    requires from + n <= |mem|
    ensures |r| == |mem|
    ensures forall k :: 0 <= k < |mem| ==> r[k] == if from <= k < from + n then v else mem[k]
  {
    mem[..from] + seq(n, _ => v) + mem[from + n..]
  }

  /** memcpy between blocks. */
  function Copy(mem: seq<Byte>, to: nat, from: nat, n: nat): (r: seq<Byte>)
    requires from + n <= |mem| && to + n <= |mem|
    ensures |r| == |mem|
    ensures forall k :: 0 <= k < |mem| ==> r[k] == if to <= k < to + n then mem[from + (k - to)] else mem[k]
  {
    mem[..to] + mem[from..from + n] + mem[to + n..]
  }

  /** palloc_free_multiple of an arena. */
  function DropPages(h: Heap, p: nat): Heap
    requires p in h.arenas && p + Span(h.arenas[p]) <= |h.used| && |h.mem| == |h.used| * PGSIZE
  {
    var span := Span(h.arenas[p]);
    assert (p + span) * PGSIZE <= |h.mem|;
    h.(used := SetRange(h.used, p, span, false),
       arenas := h.arenas - {p},
       mem := Fill(h.mem, p * PGSIZE, span * PGSIZE, FREED))
  }

  // ---------- malloc ----------

  /** The smallest descriptor from d on with blocks of at least this size. */
  function DescFor(size: nat, d: nat): (r: nat)
    requires d <= DESC_CNT
    ensures d <= r <= DESC_CNT
    ensures r < DESC_CNT ==> BlockSize(r) >= size
    ensures forall e :: d <= e < r ==> BlockSize(e) < size
    decreases DESC_CNT - d
  {
    if d == DESC_CNT || BlockSize(d) >= size then d else DescFor(size, d + 1)
  }

  /** Pages for a big block, in 32-bit arithmetic. */
  function PageCount(size: nat): nat {
    ((size + HEADER) % WORD + PGSIZE - 1) % WORD / PGSIZE
  }

  function Carved(p: nat, d: nat, n: nat): (r: seq<Addr>)
    ensures |r| == n
  {
    seq(n, i requires 0 <= i < n => Block(p, d, i))
  }

  /** A new arena, all its blocks at the end of the empty free list of d. */
  function NewArena(h: Heap, d: nat, p: nat): Heap
    requires d < DESC_CNT && |h.free| == DESC_CNT && p + 1 <= |h.used|
  {
    TakePages(h, p, Arena(Some(d), PerArena(d))).(free := h.free[d := h.free[d] + Carved(p, d, PerArena(d))])
  }

  /** The front block of the free list of d goes to the caller. */
  function Pop(h: Heap, d: nat, size: nat): (Heap, Option<Addr>)
    requires d < |h.free| && h.free[d] != []
    requires Page(h.free[d][0]) in h.arenas && h.arenas[Page(h.free[d][0])].freeCnt > 0
  {
    var b := h.free[d][0];
    var a := h.arenas[Page(b)];
    (h.(free := h.free[d := h.free[d][1..]],
        arenas := h.arenas[Page(b) := a.(freeCnt := a.freeCnt - 1)],
        live := h.live[b := size]),
     Some(b))
  }

  // ---------- free ----------

  /** Block b, cleared, goes to the front of the free list of d. */
  function Push(h: Heap, d: nat, b: Addr): Heap
    requires d < |h.free| && d < DESC_CNT && Page(b) in h.arenas && b + BlockSize(d) <= |h.mem|
  {
    var a := h.arenas[Page(b)];
    h.(free := h.free[d := [b] + h.free[d]],
       arenas := h.arenas[Page(b) := a.(freeCnt := a.freeCnt + 1)],
       live := h.live - {b},
       mem := Fill(h.mem, b, BlockSize(d), FREED))
  }

  /** list_remove. */
  function Without(l: seq<Addr>, b: Addr): (r: seq<Addr>)
    ensures multiset(r) == multiset(l) - multiset{b}
  {
    if l == [] then []
    else
      assert l == [l[0]] + l[1..];
      if l[0] == b then l[1..] else [l[0]] + Without(l[1..], b)
  }

  /** The free list after the first n blocks of page p are removed from it. */
  function WithoutBlocks(l: seq<Addr>, p: nat, d: nat, n: nat): seq<Addr> {
    if n == 0 then l else Without(WithoutBlocks(l, p, d, n - 1), Block(p, d, n - 1))
  }

  /** The arena on page p is given back. */
  function Dismantle(h: Heap, d: nat, p: nat): Heap
    requires d < |h.free| && d < DESC_CNT && p in h.arenas && p + Span(h.arenas[p]) <= |h.used| && |h.mem| == |h.used| * PGSIZE
  {
    DropPages(h.(free := h.free[d := WithoutBlocks(h.free[d], p, d, PerArena(d))]), p)
  }
}
