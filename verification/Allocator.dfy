/** The block allocator as the kernel runs it: free lists, headers and the page bitmap
    updated in place.  Every method is proved to do what the function of MallocRuns says. */
module Allocator {
  import opened Common
  import opened Bitmap
  import opened MallocState
  import opened MallocSteps
  import opened MallocRuns

  class Heaps {
    var used: seq<bool>
    var arenas: map<nat, Arena>
    var free: seq<seq<Addr>>
    var mem: seq<Byte>
    ghost var live: map<Addr, nat>

    ghost function St(): Heap
      reads this
    {
      Heap(used, arenas, free, live, mem)
    }

    /** malloc_init: one descriptor for each power of two from 16 up to half a page. */
    constructor (pages: nat)
      ensures St() == Boot(pages)
    {
      var free := [];
      var blockSize := 16;
      Sizes(6);
      while blockSize < PGSIZE / 2
        invariant |free| <= DESC_CNT && blockSize == BlockSize(|free|)
        invariant free == seq(|free|, _ => [])
        decreases DESC_CNT - |free|
      {
        assert |free| < DESC_CNT;
        free := free + [[]];
        blockSize := blockSize * 2;
      }
      AllSizes(|free|);
      this.used := seq(pages, _ => false);
      this.arenas := map[];
      this.free := free;
      this.mem := seq(pages * PGSIZE, _ => 0);
      this.live := map[];
    }

    method FindDesc(size: nat) returns (d: nat)
      ensures d == DescFor(size, 0)
    {
      d := 0;
      while d < DESC_CNT && BlockSize(d) < size
        invariant 0 <= d <= DESC_CNT && DescFor(size, d) == DescFor(size, 0)
        decreases DESC_CNT - d
      {
        d := d + 1;
      }
    }

    /** palloc_get_multiple from the kernel pool, and the header of the arena. */
    method GetArena(cnt: nat, desc: Option<nat>, freeCnt: nat) returns (p: Option<nat>)
      requires cnt > 0 && cnt == Span(Arena(desc, freeCnt))
      modifies this`used, this`arenas
      ensures p == Scan(old(used), 0, cnt)
      ensures p.None? ==> St() == old(St())
      ensures p.Some? ==> St() == TakePages(old(St()), p.value, Arena(desc, freeCnt))
    {
      p := FindClear(used, cnt);
      if p.Some? {
        used := SetRange(used, p.value, cnt, true);
        arenas := arenas[p.value := Arena(desc, freeCnt)];
      }
    }

    /** The loop that puts the blocks of a new arena on the free list. */
    method Carve(p: nat, d: nat)
      requires d < DESC_CNT && |free| == DESC_CNT
      modifies this`free
      ensures free == old(free)[d := old(free)[d] + Carved(p, d, PerArena(d))]
    {
      hide PerArena;
      ghost var list := free[d];
      assert list + Carved(p, d, 0) == list;
      var i := 0;
      while i < PerArena(d)
        invariant 0 <= i <= PerArena(d)
        invariant free == old(free)[d := list + Carved(p, d, i)]
      {
        assert list + Carved(p, d, i) + [Block(p, d, i)] == list + Carved(p, d, i + 1);
        free := free[d := free[d] + [Block(p, d, i)]];
        i := i + 1;
      }
    }

    /** The front of the free list leaves it. */
    method TakeFront(d: nat, ghost size: nat) returns (b: Option<Addr>)
      requires d < |free| && free[d] != []
      requires Page(free[d][0]) in arenas && arenas[Page(free[d][0])].freeCnt > 0
      modifies this`free, this`arenas, this`live
      ensures (St(), b) == Pop(old(St()), d, size)
    {
      hide Page;
      var front := free[d][0];
      free := free[d := free[d][1..]];
      arenas := arenas[Page(front) := arenas[Page(front)].(freeCnt := arenas[Page(front)].freeCnt - 1)];
      live := live[front := size];
      return Some(front);
    }

    /** A new arena for descriptor d. */
    method Grow(d: nat) returns (p: Option<nat>)
      requires d < DESC_CNT && |free| == DESC_CNT
      modifies this
      ensures p == Scan(old(used), 0, 1)
      ensures p.None? ==> St() == old(St())
      ensures p.Some? ==> St() == NewArena(old(St()), d, p.value)
    {
      p := GetArena(1, Some(d), PerArena(d));
      if p.Some? {
        Carve(p.value, d);
      }
    }

    method MallocBlock(d: nat, ghost size: nat) returns (b: Option<Addr>)
      requires Good(St()) && d < DESC_CNT && 0 < size <= BlockSize(d)
      modifies this
      ensures (St(), b) == MallocSmall(old(St()), d, size)
    {
      ghost var h := St();
      SevenLists(h);
      hide Almost, Page, Pop, NewArena;
      if free[d] == [] {
        var p := Grow(d);
        if p.None? {
          return None;
        }
        NewArenaKeeps(h, d, p.value);
        PopKeeps(St(), d, size, p);
      } else {
        PopKeeps(h, d, size, None);
      }
      b := TakeFront(d, size);
    }

    method MallocPages(size: nat) returns (b: Option<Addr>)
      requires Good(St()) && size < WORD
      modifies this
      ensures (St(), b) == MallocBig(old(St()), size)
    {
      var cnt := PageCount(size);
      if cnt == 0 {
        return None;
      }
      var p := GetArena(cnt, None, cnt);
      if p.None? {
        return None;
      }
      live := live[Big(p.value) := Usable(size)];
      return Some(Big(p.value));
    }

    method Alloc(size: nat) returns (b: Option<Addr>)
      requires Good(St()) && size < WORD
      modifies this
      ensures (St(), b) == Malloc(old(St()), size)
    {
      hide MallocBig, MallocSmall, Almost;
      if size == 0 {
        return None;
      }
      var d := FindDesc(size);
      if d == DESC_CNT {
        b := MallocPages(size);
      } else {
        b := MallocBlock(d, size);
      }
    }

    /** palloc_free_multiple. */
    method FreePages(p: nat, cnt: nat)
      requires p in arenas && cnt == Span(arenas[p]) && p + cnt <= |used| && |mem| == |used| * PGSIZE
      requires AllAre(used, p, cnt, true)
      modifies this`used, this`arenas, this`mem
      ensures St() == DropPages(old(St()), p)
    {
      assert (p + cnt) * PGSIZE <= |mem|;
      mem := Fill(mem, p * PGSIZE, cnt * PGSIZE, FREED);
      used := SetRange(used, p, cnt, false);
      arenas := arenas - {p};
    }

    /** The loop that takes the blocks of a free arena off the free list. */
    method Uncarve(p: nat, d: nat)
      requires d < DESC_CNT && |free| == DESC_CNT
      modifies this`free
      ensures free == old(free)[d := WithoutBlocks(old(free)[d], p, d, PerArena(d))]
    {
      hide PerArena, Block, Without;
      var i := 0;
      while i < PerArena(d)
        invariant 0 <= i <= PerArena(d) && |free| == DESC_CNT
        invariant free == old(free)[d := WithoutBlocks(old(free)[d], p, d, i)]
      {
        free := free[d := Without(free[d], Block(p, d, i))];
        i := i + 1;
      }
    }

    /** A block of an arena goes back on its free list. */
    method PutBack(d: nat, b: Addr)
      requires d < |free| && d < DESC_CNT && Page(b) in arenas && b + BlockSize(d) <= |mem|
      modifies this
      ensures St() == Push(old(St()), d, b)
    {
      hide Page, Fill;
      mem := Fill(mem, b, BlockSize(d), FREED);
      free := free[d := [b] + free[d]];
      arenas := arenas[Page(b) := arenas[Page(b)].(freeCnt := arenas[Page(b)].freeCnt + 1)];
      live := live - {b};
    }

    /** An arena that is entirely free goes back to the page allocator. */
    method TearDown(p: nat, d: nat)
      requires Almost(St(), Some(p)) && d < DESC_CNT && p in arenas && arenas[p].desc == Some(d)
      requires p + 1 <= |used|
      modifies this
      ensures St() == Dismantle(old(St()), d, p)
    {
      ghost var h := St();
      DropTiles(h, Some(p), p);
      Shaped(h, Some(p), p);
      hide Almost, Page;
      Uncarve(p, d);
      FreePages(p, 1);
    }

    /** free of a block of an arena, which goes back to the page allocator when it was the
        last one in use. */
    method ReleaseBlock(b: Addr, d: nat)
      requires Good(St()) && b in live && d < DESC_CNT && arenas[Page(b)].desc == Some(d)
      modifies this
      ensures St() == FreeBlock(old(St()), b)
    {
      var p := Page(b);
      SevenLists(St());
      PushKeeps(St(), d, b);
      hide Push, Almost, Page;
      PutBack(d, b);
      if arenas[p].freeCnt >= PerArena(d) {
        Shaped(St(), Some(p), p);
        DropTiles(St(), Some(p), p);
        assert arenas[p].freeCnt == PerArena(d);
        TearDown(p, d);
      }
    }

    method Release(ptr: Option<Addr>)
      requires Good(St()) && (ptr.Some? ==> ptr.value in live)
      modifies this
      ensures St() == Free(old(St()), ptr)
    {
      if ptr.Some? {
        ghost var h := St();
        var b := ptr.value;
        LiveIsSlot(h, b);
        var p := Page(b);
        DropTiles(h, None, p);
        Shaped(h, None, p);
        hide Almost, Page;
        if arenas[p].desc.Some? {
          ReleaseBlock(b, arenas[p].desc.value);
        } else {
          live := live - {b};
          FreePages(p, arenas[p].freeCnt);
        }
      }
    }

    method Resize(ptr: Option<Addr>, size: nat) returns (b: Option<Addr>)
      requires Good(St()) && (ptr.Some? ==> ptr.value in live) && CopyFits(St(), ptr, size)
      modifies this
      ensures (St(), b) == Realloc(old(St()), ptr, size)
    {
      hide Almost, Malloc, FreeBlock;
      ghost var h := St();
      if size == 0 {
        Release(ptr);
        return None;
      }
      MallocKeeps(h, size);
      b := Alloc(size);
      if ptr.Some? && b.Some? {
        ghost var m := St();
        MoveFits(h, m, ptr, b, size);
        LiveIsSlot(m, ptr.value);
        LiveIsSlot(m, b.value);
        SlotInArena(m, None, ptr.value);
        SlotInArena(m, None, b.value);
        var n := Min(size, Room(arenas[Page(ptr.value)]));
        CopyKeeps(m, b.value, ptr.value, n);
        mem := Copy(mem, b.value, ptr.value, n);
        Release(ptr);
      }
    }
  }

  lemma AllSizes(n: nat)
    requires n <= DESC_CNT && BlockSize(n) >= PGSIZE / 2
    ensures n == DESC_CNT
  {
    if n < DESC_CNT {
      Sizes(n);
    }
  }

  lemma SevenLists(h: Heap)
    requires Good(h)
    ensures |h.free| == DESC_CNT
  {
    hide Tally, CountOk, Tiled;
  }

  lemma Shaped(h: Heap, full: Option<nat>, p: nat)
    requires Almost(h, full) && p in h.arenas
    ensures |h.free| == DESC_CNT && |h.mem| == |h.used| * PGSIZE
    ensures h.arenas[p].desc.Some? ==> h.arenas[p].desc.value < DESC_CNT
  {
    hide Tally, CountOk, Tiled;
  }
}
