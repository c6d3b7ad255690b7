/** What malloc, free and realloc keep. */
module MallocSteps {
  import opened Common
  import opened Bitmap
  import opened MallocState

  // ---------- counting free blocks ----------

  lemma {:induction false} TallySame(m: multiset<Addr>, m': multiset<Addr>, p: nat, d: nat, n: nat)
    requires d < DESC_CNT && n <= PerArena(d)
    requires forall b :: b >= 0 && Page(b) == p ==> m[b] == m'[b]
    ensures Tally(m, p, d, n) == Tally(m', p, d, n)
  {
    if n > 0 {
      BlockPlace(p, d, n - 1);
      TallySame(m, m', p, d, n - 1);
    }
  }

  /** One more block on the list counts once. */
  lemma {:induction false} TallyMore(m: multiset<Addr>, p: nat, d: nat, b: Addr, n: nat)
    requires d < DESC_CNT && n <= PerArena(d) && IsBlock(d, b) && Page(b) == p && b !in m
    ensures Tally(m + multiset{b}, p, d, n) == Tally(m, p, d, n) + One(Index(d, b) < n)
  {
    if n > 0 {
      BlockPlace(p, d, n - 1);
      BlockBack(d, b);
      TallyMore(m, p, d, b, n - 1);
    }
  }

  lemma {:induction false} TallyAll(m: multiset<Addr>, p: nat, d: nat, n: nat)
    ensures Tally(m, p, d, n) <= n
    ensures Tally(m, p, d, n) == n <==> forall i :: 0 <= i < n ==> Block(p, d, i) in m
  {
    if n > 0 {
      TallyAll(m, p, d, n - 1);
    }
  }

  // ---------- the front of a free list ----------

  lemma FrontOk(h: Heap, d: nat, full: Option<nat>)
    requires Almost(h, full) && d < DESC_CNT && h.free[d] != []
    ensures var b := h.free[d][0];
      InArena(h.arenas, d, b) && b !in h.live && h.arenas[Page(b)].freeCnt > 0
    ensures multiset(h.free[d]) == multiset(h.free[d][1..]) + multiset{h.free[d][0]}
    ensures h.free[d][0] !in h.free[d][1..]
  {
    hide Tally, Tiled;
    var b, rest := h.free[d][0], h.free[d][1..];
    Front(h.free[d]);
    assert multiset(h.free[d])[b] == One(InArena(h.arenas, d, b) && b !in h.live);
    assert CountOk(h.arenas[Page(b)], h.free[d], Page(b), full == Some(Page(b)));
    hide Almost, BlockSize, IsBlock;
    TallyMore(multiset(rest), Page(b), d, b, PerArena(d));
    BlockBack(d, b);
  }

  lemma Front(l: seq<Addr>)
    requires l != []
    ensures multiset(l) == multiset(l[1..]) + multiset{l[0]}
  {
    assert l == [l[0]] + l[1..];
  }

  lemma GroupsUpdate(arenas: map<nat, Arena>, p: nat, a: Arena)
    ensures Groups(arenas[p := a]) == Groups(arenas)[p := Span(a)]
    ensures Groups(arenas - {p}) == Groups(arenas) - {p}
    ensures p in arenas && Span(a) == Span(arenas[p]) ==> Groups(arenas[p := a]) == Groups(arenas)
  {
  }

  lemma PopKeeps(h: Heap, d: nat, size: nat, full: Option<nat>)
    requires Almost(h, full) && d < DESC_CNT && h.free[d] != [] && 0 < size <= BlockSize(d)
    requires full.Some? ==> full.value == Page(h.free[d][0])
    ensures Page(h.free[d][0]) in h.arenas && h.arenas[Page(h.free[d][0])].freeCnt > 0
    ensures Good(Pop(h, d, size).0)
  {
    hide Tally, CountOk;
    var b := h.free[d][0];
    FrontOk(h, d, full);
    var r := Pop(h, d, size).0;
    GroupsUpdate(h.arenas, Page(b), r.arenas[Page(b)]);
    PopLists(h, d, size, full);
    PopCounts(h, d, size, full);
    PopLive(h, d, size, full);
  }

  lemma PopLists(h: Heap, d: nat, size: nat, full: Option<nat>)
    requires Almost(h, full) && d < DESC_CNT && h.free[d] != []
    requires Page(h.free[d][0]) in h.arenas && h.arenas[Page(h.free[d][0])].freeCnt > 0
    ensures var r := Pop(h, d, size).0; DescsOk(r.arenas) && ListsOk(r.arenas, r.free, r.live)
  {
    hide Tally, Tiled;
    var b, r := h.free[d][0], Pop(h, d, size).0;
    FrontOk(h, d, full);
    forall e, x | 0 <= e < DESC_CNT && x >= 0
      ensures multiset(r.free[e])[x] == One(InArena(r.arenas, e, x) && x !in r.live)
    {
      assert multiset(h.free[e])[x] == One(InArena(h.arenas, e, x) && x !in h.live);
      assert InArena(r.arenas, e, x) == InArena(h.arenas, e, x);
    }
  }

  lemma PopCounts(h: Heap, d: nat, size: nat, full: Option<nat>)
    requires Almost(h, full) && d < DESC_CNT && h.free[d] != []
    requires Page(h.free[d][0]) in h.arenas && h.arenas[Page(h.free[d][0])].freeCnt > 0
    requires full.Some? ==> full.value == Page(h.free[d][0])
    ensures var r := Pop(h, d, size).0; DescsOk(r.arenas) && |r.free| == DESC_CNT && CountsOk(r.arenas, r.free, None)
  {
    hide Tally, Tiled;
    var b, r := h.free[d][0], Pop(h, d, size).0;
    FrontOk(h, d, full);
    BlockBack(d, b);
    forall p | p in r.arenas && r.arenas[p].desc.Some?
      ensures CountOk(r.arenas[p], r.free[r.arenas[p].desc.value], p, false)
    {
      var e := r.arenas[p].desc.value;
      assert CountOk(h.arenas[p], h.free[e], p, full == Some(p));
      if p == Page(b) {
        TallyMore(multiset(r.free[d]), p, d, b, PerArena(d));
        TallyAll(multiset(h.free[d]), p, d, PerArena(d));
      } else {
        TallySame(multiset(h.free[e]), multiset(r.free[e]), p, e, PerArena(e));
      }
    }
  }

  lemma PopLive(h: Heap, d: nat, size: nat, full: Option<nat>)
    requires Almost(h, full) && d < DESC_CNT && h.free[d] != [] && 0 < size <= BlockSize(d)
    requires Page(h.free[d][0]) in h.arenas && h.arenas[Page(h.free[d][0])].freeCnt > 0
    ensures var r := Pop(h, d, size).0; DescsOk(r.arenas) && LiveOk(r.arenas, r.live)
  {
    hide Tally, Tiled, ListsOk, CountsOk;
    FrontOk(h, d, full);
  }

  // ---------- a new arena ----------

  lemma CarvedHolds(p: nat, d: nat, n: nat, b: Addr)
    requires d < DESC_CNT && n <= PerArena(d)
    ensures multiset(Carved(p, d, n))[b] == One(IsBlock(d, b) && Page(b) == p && Index(d, b) < n)
  {
    if n > 0 {
      CarvedHolds(p, d, n - 1, b);
      BlockPlace(p, d, n - 1);
      assert Carved(p, d, n) == Carved(p, d, n - 1) + [Block(p, d, n - 1)];
      if IsBlock(d, b) {
        BlockBack(d, b);
      }
    } else {
      assert Carved(p, d, n) == [];
    }
  }

  /** A page that is not in use heads no arena, and nothing lives or is free there. */
  lemma NewPage(h: Heap, p: nat, a: Arena)
    requires Good(h) && AllAre(h.used, p, Span(a), false) && Span(a) >= 1
    ensures p !in h.arenas
    ensures Tiled(TakePages(h, p, a).used, Groups(TakePages(h, p, a).arenas))
    ensures forall b :: b in h.live ==> Page(b) != p
  {
    hide Tally, CountOk;
    TakeTiles(h.used, Groups(h.arenas), p, Span(a));
    GroupsUpdate(h.arenas, p, a);
    assert p !in Groups(h.arenas);
  }

  lemma NewArenaKeeps(h: Heap, d: nat, p: nat)
    requires Good(h) && d < DESC_CNT && h.free[d] == [] && AllAre(h.used, p, 1, false)
    ensures var r := NewArena(h, d, p);
      Almost(r, Some(p)) && r.free[d] != [] && Page(r.free[d][0]) == p
  {
    hide Tally, CountOk;
    var a := Arena(Some(d), PerArena(d));
    var r := NewArena(h, d, p);
    NewPage(h, p, a);
    Sizes(d);
    BlockPlace(p, d, 0);
    assert r.free[d] == Carved(p, d, PerArena(d));
    NewArenaLists(h, d, p);
    NewArenaCounts(h, d, p);
    assert LiveOk(r.arenas, r.live);
  }

  lemma NewArenaLists(h: Heap, d: nat, p: nat)
    requires Good(h) && d < DESC_CNT && h.free[d] == [] && p + 1 <= |h.used| && p !in h.arenas
    requires forall b :: b in h.live ==> Page(b) != p
    ensures var r := NewArena(h, d, p); ListsOk(r.arenas, r.free, r.live)
  {
    hide Tally, Tiled;
    var r := NewArena(h, d, p);
    assert r.free[d] == Carved(p, d, PerArena(d));
    forall e, x | 0 <= e < DESC_CNT && x >= 0
      ensures multiset(r.free[e])[x] == One(InArena(r.arenas, e, x) && x !in r.live)
    {
      assert multiset(h.free[e])[x] == One(InArena(h.arenas, e, x) && x !in h.live);
      assert Page(x) != p ==> InArena(r.arenas, e, x) == InArena(h.arenas, e, x);
      if e == d {
        CarvedHolds(p, d, PerArena(d), x);
        if IsBlock(d, x) {
          BlockBack(d, x);
        }
      }
    }
  }

  lemma NewArenaCounts(h: Heap, d: nat, p: nat)
    requires Good(h) && d < DESC_CNT && h.free[d] == [] && p + 1 <= |h.used| && p !in h.arenas
    ensures var r := NewArena(h, d, p); DescsOk(r.arenas) && CountsOk(r.arenas, r.free, Some(p))
  {
    hide Tally, Tiled;
    var r := NewArena(h, d, p);
    assert r.free[d] == Carved(p, d, PerArena(d));
    forall q | q in r.arenas && r.arenas[q].desc.Some?
      ensures CountOk(r.arenas[q], r.free[r.arenas[q].desc.value], q, q == p)
    {
      var e := r.arenas[q].desc.value;
      if q == p {
        forall i | 0 <= i < PerArena(d)
          ensures Block(p, d, i) in multiset(r.free[d])
        {
          BlockPlace(p, d, i);
          CarvedHolds(p, d, PerArena(d), Block(p, d, i));
        }
        TallyAll(multiset(r.free[d]), p, d, PerArena(d));
      } else {
        assert CountOk(h.arenas[q], h.free[e], q, false);
        if e == d {
          forall x | x >= 0 && Page(x) == q
            ensures multiset(h.free[d])[x] == multiset(r.free[d])[x]
          {
            CarvedHolds(p, d, PerArena(d), x);
          }
          TallySame(multiset(h.free[d]), multiset(r.free[d]), q, d, PerArena(d));
        }
      }
    }
  }

  // ---------- back on the free list ----------

  /** A place for a block, live or free. */
  ghost predicate Slot(arenas: map<nat, Arena>, b: Addr)
    requires DescsOk(arenas)
  {
    Page(b) in arenas && OfArena(arenas[Page(b)], b)
  }

  /** A slot lies in its arena, within memory and past the header. */
  lemma SlotInArena(h: Heap, full: Option<nat>, b: Addr)
    requires Almost(h, full) && Slot(h.arenas, b)
    ensures var a := h.arenas[Page(b)];
      && Page(b) + Span(a) <= |h.used|
      && Page(b) * PGSIZE + HEADER <= b && b + Room(a) <= (Page(b) + Span(a)) * PGSIZE <= |h.mem|
  {
    hide Tally, CountOk;
    var a := h.arenas[Page(b)];
    assert Page(b) in Groups(h.arenas);
    if a.desc.Some? {
      BlockBack(a.desc.value, b);
      BlockPlace(Page(b), a.desc.value, Index(a.desc.value, b));
    } else {
      BigBack(b);
    }
  }

  lemma PushKeeps(h: Heap, d: nat, b: Addr)
    requires Good(h) && b in h.live && d < DESC_CNT && h.arenas[Page(b)].desc == Some(d)
    ensures b + BlockSize(d) <= |h.mem|
    ensures var r := Push(h, d, b);
      Almost(r, Some(Page(b))) && r.arenas[Page(b)].freeCnt <= PerArena(d)
  {
    hide Tally, CountOk;
    SlotInArena(h, None, b);
    var r := Push(h, d, b);
    GroupsUpdate(h.arenas, Page(b), r.arenas[Page(b)]);
    assert multiset(h.free[d])[b] == One(InArena(h.arenas, d, b) && b !in h.live);
    PushLists(h, d, b);
    PushCounts(h, d, b);
    PushLive(h, d, b);
  }

  lemma PushLists(h: Heap, d: nat, b: Addr)
    requires Good(h) && b in h.live && d < DESC_CNT && h.arenas[Page(b)].desc == Some(d) && b + BlockSize(d) <= |h.mem|
    ensures var r := Push(h, d, b); DescsOk(r.arenas) && ListsOk(r.arenas, r.free, r.live)
  {
    hide Tally, Tiled;
    var r := Push(h, d, b);
    forall e, x | 0 <= e < DESC_CNT && x >= 0
      ensures multiset(r.free[e])[x] == One(InArena(r.arenas, e, x) && x !in r.live)
    {
      assert multiset(h.free[e])[x] == One(InArena(h.arenas, e, x) && x !in h.live);
      assert InArena(r.arenas, e, x) == InArena(h.arenas, e, x);
    }
  }

  lemma PushCounts(h: Heap, d: nat, b: Addr)
    requires Good(h) && b in h.live && d < DESC_CNT && h.arenas[Page(b)].desc == Some(d) && b + BlockSize(d) <= |h.mem|
    requires b !in h.free[d]
    ensures var r := Push(h, d, b);
      && DescsOk(r.arenas) && |r.free| == DESC_CNT && CountsOk(r.arenas, r.free, Some(Page(b)))
      && r.arenas[Page(b)].freeCnt <= PerArena(d)
  {
    hide Tally, Tiled;
    var r := Push(h, d, b);
    assert multiset(r.free[d]) == multiset(h.free[d]) + multiset{b};
    forall p | p in r.arenas && r.arenas[p].desc.Some?
      ensures CountOk(r.arenas[p], r.free[r.arenas[p].desc.value], p, p == Page(b))
    {
      var e := r.arenas[p].desc.value;
      assert CountOk(h.arenas[p], h.free[e], p, false);
      if p == Page(b) {
        BlockBack(d, b);
        TallyMore(multiset(h.free[d]), p, d, b, PerArena(d));
      } else {
        TallySame(multiset(h.free[e]), multiset(r.free[e]), p, e, PerArena(e));
      }
    }
    TallyAll(multiset(r.free[d]), Page(b), d, PerArena(d));
  }

  lemma PushLive(h: Heap, d: nat, b: Addr)
    requires Good(h) && b in h.live && d < DESC_CNT && h.arenas[Page(b)].desc == Some(d) && b + BlockSize(d) <= |h.mem|
    ensures var r := Push(h, d, b); DescsOk(r.arenas) && LiveOk(r.arenas, r.live)
  {
    hide Tally, Tiled, ListsOk, CountsOk;
  }

  // ---------- arenas given back ----------

  /** x is one of the first n blocks of page p. */
  ghost predicate Among(p: nat, d: nat, n: nat, x: Addr) {
    n > 0 && (x == Block(p, d, n - 1) || Among(p, d, n - 1, x))
  }

  lemma {:induction false} AmongIs(p: nat, d: nat, n: nat, x: Addr)
    requires d < DESC_CNT && n <= PerArena(d)
    ensures Among(p, d, n, x) <==> IsBlock(d, x) && Page(x) == p && Index(d, x) < n
  {
    if n > 0 {
      AmongIs(p, d, n - 1, x);
      BlockPlace(p, d, n - 1);
      if IsBlock(d, x) {
        BlockBack(d, x);
      }
      hide BlockSize, PerArena, Block, Page, IsBlock, Index;
    }
  }

  lemma {:induction false} WithoutHolds(l: seq<Addr>, p: nat, d: nat, n: nat, x: Addr)
    requires multiset(l)[x] <= 1
    ensures multiset(WithoutBlocks(l, p, d, n))[x] == if Among(p, d, n, x) then 0 else multiset(l)[x]
    decreases n
  {
    hide WithoutBlocks, Among, Block;
    OneGoes(l, p, d, n, x);
    if n > 0 {
      WithoutHolds(l, p, d, n - 1, x);
    }
  }

  lemma OneGoes(l: seq<Addr>, p: nat, d: nat, n: nat, x: Addr)
    ensures n == 0 ==> WithoutBlocks(l, p, d, n) == l && !Among(p, d, n, x)
    ensures n > 0 ==>
      && multiset(WithoutBlocks(l, p, d, n)) == multiset(WithoutBlocks(l, p, d, n - 1)) - multiset{Block(p, d, n - 1)}
      && (Among(p, d, n, x) <==> Among(p, d, n - 1, x) || x == Block(p, d, n - 1))
  {
  }

  /** Removing the blocks of page p removes from the list exactly what is on that page. */
  lemma WithoutPage(h: Heap, full: Option<nat>, p: nat, d: nat, x: Addr)
    requires Almost(h, full) && d < DESC_CNT
    ensures multiset(WithoutBlocks(h.free[d], p, d, PerArena(d)))[x] ==
      if Page(x) == p then 0 else multiset(h.free[d])[x]
  {
    hide Tally, Tiled;
    assert multiset(h.free[d])[x] == One(InArena(h.arenas, d, x) && x !in h.live);
    WithoutHolds(h.free[d], p, d, PerArena(d), x);
    AmongIs(p, d, PerArena(d), x);
    if IsBlock(d, x) {
      BlockBack(d, x);
    }
    hide Almost, BlockSize, PerArena, Page, IsBlock, Index;
  }

  /** An arena all of whose blocks are free has no live block. */
  lemma NobodyLives(h: Heap, d: nat, p: nat)
    requires Almost(h, Some(p)) && d < DESC_CNT && p in h.arenas
    requires h.arenas[p].desc == Some(d) && h.arenas[p].freeCnt >= PerArena(d)
    ensures forall b :: b in h.live ==> Page(b) != p
  {
    hide Tally, Tiled;
    assert CountOk(h.arenas[p], h.free[d], p, true);
    TallyAll(multiset(h.free[d]), p, d, PerArena(d));
    forall b | b >= 0 && Page(b) == p && IsBlock(d, b)
      ensures b !in h.live
    {
      BlockBack(d, b);
      assert multiset(h.free[d])[b] == One(InArena(h.arenas, d, b) && b !in h.live);
      assert Block(p, d, Index(d, b)) in multiset(h.free[d]);
    }
    assert forall b :: b in h.live && Page(b) == p ==> OfArena(h.arenas[p], b);
  }

  /** What is left of the pages when the arena on page p is given back. */
  lemma DropTiles(h: Heap, full: Option<nat>, p: nat)
    requires Almost(h, full) && p in h.arenas
    ensures p + Span(h.arenas[p]) <= |h.used|
    ensures AllAre(h.used, p, Span(h.arenas[p]), true)
    ensures Tiled(DropPages(h, p).used, Groups(DropPages(h, p).arenas))
  {
    hide Tally, CountOk;
    ReleaseTiles(h.used, Groups(h.arenas), p);
    GroupsUpdate(h.arenas, p, h.arenas[p]);
  }

  lemma DismantleKeeps(h: Heap, d: nat, p: nat)
    requires Almost(h, Some(p)) && d < DESC_CNT && p in h.arenas
    requires h.arenas[p].desc == Some(d) && h.arenas[p].freeCnt >= PerArena(d)
    ensures p + 1 <= |h.used|
    ensures Good(Dismantle(h, d, p))
  {
    hide Tally, CountOk;
    DropTiles(h, Some(p), p);
    NobodyLives(h, d, p);
    DismantleLists(h, d, p);
    DismantleCounts(h, d, p);
    var r := Dismantle(h, d, p);
    assert LiveOk(r.arenas, r.live);
  }

  lemma DismantleLists(h: Heap, d: nat, p: nat)
    requires Almost(h, Some(p)) && d < DESC_CNT && p in h.arenas && h.arenas[p].desc == Some(d) && p + 1 <= |h.used|
    ensures var r := Dismantle(h, d, p); DescsOk(r.arenas) && ListsOk(r.arenas, r.free, r.live)
  {
    hide Tally, Tiled;
    var r := Dismantle(h, d, p);
    forall e, x | 0 <= e < DESC_CNT && x >= 0
      ensures multiset(r.free[e])[x] == One(InArena(r.arenas, e, x) && x !in r.live)
    {
      assert multiset(h.free[e])[x] == One(InArena(h.arenas, e, x) && x !in h.live);
      assert InArena(r.arenas, e, x) == (InArena(h.arenas, e, x) && Page(x) != p);
      if e == d {
        WithoutPage(h, Some(p), p, d, x);
      }
    }
  }

  lemma DismantleCounts(h: Heap, d: nat, p: nat)
    requires Almost(h, Some(p)) && d < DESC_CNT && p in h.arenas && h.arenas[p].desc == Some(d) && p + 1 <= |h.used|
    ensures var r := Dismantle(h, d, p); DescsOk(r.arenas) && |r.free| == DESC_CNT && CountsOk(r.arenas, r.free, None)
  {
    hide Tally, Tiled;
    var r := Dismantle(h, d, p);
    forall q | q in r.arenas && r.arenas[q].desc.Some?
      ensures CountOk(r.arenas[q], r.free[r.arenas[q].desc.value], q, false)
    {
      var e := r.arenas[q].desc.value;
      assert CountOk(h.arenas[q], h.free[e], q, false);
      if e == d {
        forall x | x >= 0 && Page(x) == q
          ensures multiset(h.free[d])[x] == multiset(r.free[d])[x]
        {
          WithoutPage(h, Some(p), p, d, x);
        }
        TallySame(multiset(h.free[d]), multiset(r.free[d]), q, d, PerArena(d));
      }
    }
  }

  // ---------- big blocks ----------

  lemma TakeBigKeeps(h: Heap, p: nat, cnt: nat, size: nat)
    requires Good(h) && cnt >= 1 && AllAre(h.used, p, cnt, false) && 0 < size <= cnt * PGSIZE - HEADER
    ensures Good(TakePages(h, p, Arena(None, cnt)).(live := h.live[Big(p) := size]))
  {
    hide Tally, CountOk, ListsOk, CountsOk, Tiled;
    var a := Arena(None, cnt);
    var r := TakePages(h, p, a).(live := h.live[Big(p) := size]);
    NewPage(h, p, a);
    BigPlace(p);
    SameLists(h, r, p);
    assert LiveOk(r.arenas, r.live);
  }

  /** A big arena that comes or goes on page p leaves the lists and counts alone. */
  lemma SameLists(h: Heap, r: Heap, p: nat)
    requires Good(h) && DescsOk(r.arenas) && r.free == h.free
    requires p in h.arenas ==> h.arenas[p].desc.None?
    requires p in r.arenas ==> r.arenas[p].desc.None?
    requires forall q :: q != p ==> (q in r.arenas <==> q in h.arenas) && (q in h.arenas ==> r.arenas[q] == h.arenas[q])
    requires forall b :: b >= 0 && Page(b) != p ==> (b in r.live <==> b in h.live)
    ensures ListsOk(r.arenas, r.free, r.live) && CountsOk(r.arenas, r.free, None)
  {
    hide Tally, Tiled;
    forall e, x | 0 <= e < DESC_CNT && x >= 0
      ensures multiset(r.free[e])[x] == One(InArena(r.arenas, e, x) && x !in r.live)
    {
      assert multiset(h.free[e])[x] == One(InArena(h.arenas, e, x) && x !in h.live);
      assert InArena(r.arenas, e, x) == InArena(h.arenas, e, x);
    }
    forall q | q in r.arenas && r.arenas[q].desc.Some?
      ensures CountOk(r.arenas[q], r.free[r.arenas[q].desc.value], q, false)
    {
      assert CountOk(h.arenas[q], h.free[h.arenas[q].desc.value], q, false);
    }
  }

  lemma DropBigKeeps(h: Heap, b: Addr)
    requires Good(h) && b in h.live && h.arenas[Page(b)].desc.None?
    ensures Page(b) + Span(h.arenas[Page(b)]) <= |h.used|
    ensures Good(DropPages(h.(live := h.live - {b}), Page(b)))
  {
    hide Tally, CountOk;
    var p := Page(b);
    DropTiles(h, None, p);
    var r := DropPages(h.(live := h.live - {b}), p);
    BigBack(b);
    forall x | x in h.live && Page(x) == p
      ensures x == b
    {
      BigBack(x);
    }
    SameLists(h, r, p);
  }
}
