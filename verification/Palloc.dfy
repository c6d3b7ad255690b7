/** The page allocator: two pools of pages, each with a bitmap of the pages in use. */
module Palloc {
  import opened Common
  import opened Bitmap

  const PGSIZE := 4096
  const FIRST_PAGE := 0xC0000 + 256 // ptov (1 MB)
  const BITMAP_HEADER := 8 // sizeof (struct bitmap)

  /** A pool: its first page and its used_map. */
  datatype Pool = Pool(base: nat, used: seq<bool>)

  /** bitmap_buf_size: the header and one bit a page, in whole words. */
  function BitmapBytes(cnt: nat): nat { BITMAP_HEADER + (cnt + 31) / 32 * 4 }

  /** Pages that init_pool sets aside for the bitmap of `cnt` pages. */
  function BitmapPages(cnt: nat): nat {
    (BitmapBytes(cnt) + PGSIZE - 1) / PGSIZE
  }

  /** init_pool, which panics when the bitmap does not fit. */
  function InitPool(base: nat, cnt: nat): Option<Pool> {
    var bm := BitmapPages(cnt);
    if bm > cnt then None else Some(Pool(base + bm, seq(cnt - bm, _ => false)))
  }

  function UserPages(freePages: nat, limit: nat): nat {
    if freePages / 2 > limit then limit else freePages / 2
  }

  /** palloc_init with this many free pages. */
  function InitPools(freePages: nat, limit: nat): Option<(Pool, Pool)> {
    var user := UserPages(freePages, limit);
    var kernelPool := InitPool(FIRST_PAGE, freePages - user);
    var userPool := InitPool(FIRST_PAGE + (freePages - user), user);
    if kernelPool.None? || userPool.None? then None else Some((kernelPool.value, userPool.value))
  }

  /** page_from_pool. */
  predicate FromPool(pool: Pool, page: nat) {
    pool.base <= page < pool.base + |pool.used|
  }

  /** The bitmap of each pool, header included, fits in the pages in front of it, and the two
      pools are apart, clear and within memory. */
  lemma InitPoolsApart(freePages: nat, limit: nat)
    ensures InitPools(freePages, limit).Some? ==>
      var (k, u) := InitPools(freePages, limit).value;
      && FIRST_PAGE <= k.base && k.base + |k.used| <= u.base && u.base + |u.used| == FIRST_PAGE + freePages
      && AllAre(k.used, 0, |k.used|, false) && AllAre(u.used, 0, |u.used|, false)
      && BitmapBytes(|k.used|) <= (k.base - FIRST_PAGE) * PGSIZE
      && BitmapBytes(|u.used|) <= (u.base - (k.base + |k.used|)) * PGSIZE
      && |u.used| <= limit
    ensures InitPools(freePages, limit).None? <==> freePages < 2 || limit == 0
  {
    hide BitmapPages, BitmapBytes;
    var user := UserPages(freePages, limit);
    BitmapFits(freePages - user);
    BitmapFits(user);
  }

  lemma BitmapFits(cnt: nat)
    ensures BitmapPages(cnt) <= cnt ==> BitmapBytes(cnt - BitmapPages(cnt)) <= BitmapPages(cnt) * PGSIZE
    ensures BitmapPages(cnt) <= cnt <==> cnt > 0
  {
  }

  lemma InPool(bits: seq<bool>, groups: map<nat, nat>, p: nat)
    requires Tiled(bits, groups) && p in groups
    ensures p < |bits|
  {
  }

  class Pools {
    var kernelPool: Pool
    var userPool: Pool
    /** The groups that palloc_get_multiple returned and nobody freed, by bit. */
    ghost var kernelGroups: map<nat, nat>
    ghost var userGroups: map<nat, nat>

    ghost predicate Valid()
      reads this
    {
      && Tiled(kernelPool.used, kernelGroups)
      && Tiled(userPool.used, userGroups)
      && kernelPool.base + |kernelPool.used| <= userPool.base
    }

    constructor (freePages: nat, limit: nat)
      requires InitPools(freePages, limit).Some?
      ensures Valid() && kernelGroups == map[] && userGroups == map[]
    {
      InitPoolsApart(freePages, limit);
      var (k, u) := InitPools(freePages, limit).value;
      kernelPool, userPool := k, u;
      kernelGroups, userGroups := map[], map[];
      new;
      assert forall i, p :: !Covers(map[], p, i);
    }

    function Used(user: bool): seq<bool>
      reads this
    {
      if user then userPool.used else kernelPool.used
    }

    function Base(user: bool): nat
      reads this
    {
      if user then userPool.base else kernelPool.base
    }

    ghost function Groups(user: bool): map<nat, nat>
      reads this
    {
      if user then userGroups else kernelGroups
    }

    /** Exactly the pages of one new group are taken, the lowest that were free, and the
        other pool is not touched. */
    method GetMultiple(user: bool, cnt: nat) returns (page: Option<nat>)
      requires Valid()
      modifies this
      ensures Valid() && Base(true) == old(Base(true)) && Base(false) == old(Base(false))
      ensures page.Some? <==> cnt > 0 && Scan(old(Used(user)), 0, cnt).Some?
      ensures page.Some? ==> Some(page.value - Base(user)) == Scan(old(Used(user)), 0, cnt)
      ensures Groups(user) == if page.None? then old(Groups(user)) else old(Groups(user))[page.value - Base(user) := cnt]
      ensures Groups(!user) == old(Groups(!user)) && Used(!user) == old(Used(!user))
      ensures page.None? ==> Used(user) == old(Used(user))
    {
      if cnt == 0 {
        return None;
      }
      var idx := FindClear(Used(user), cnt);
      if idx.None? {
        return None;
      }
      TakeTiles(Used(user), Groups(user), idx.value, cnt);
      var taken := SetRange(Used(user), idx.value, cnt, true);
      if user {
        userPool, userGroups := userPool.(used := taken), userGroups[idx.value := cnt];
      } else {
        kernelPool, kernelGroups := kernelPool.(used := taken), kernelGroups[idx.value := cnt];
      }
      return Some(Base(user) + idx.value);
    }

    /** Freeing a group gives back exactly its pages, in the pool that it came from, and the
        assertion that they were all in use holds. */
    method FreeMultiple(page: nat, cnt: nat, ghost user: bool)
      requires Valid() && Base(user) <= page
      requires page - Base(user) in Groups(user) && Groups(user)[page - Base(user)] == cnt
      modifies this
      ensures Valid() && Base(true) == old(Base(true)) && Base(false) == old(Base(false))
      ensures Groups(user) == old(Groups(user)) - {page - Base(user)}
      ensures Groups(!user) == old(Groups(!user)) && Used(!user) == old(Used(!user))
    {
      InPool(Used(user), Groups(user), page - Base(user));
      if FromPool(kernelPool, page) {
        FreeBits(false, page - kernelPool.base, cnt);
      } else {
        FreeBits(true, page - userPool.base, cnt);
      }
    }

    /** The assertion of palloc_free_multiple and bitmap_set_multiple. */
    method FreeBits(user: bool, idx: nat, cnt: nat)
      requires Valid() && idx in Groups(user) && Groups(user)[idx] == cnt
      modifies this
      ensures Valid() && Base(true) == old(Base(true)) && Base(false) == old(Base(false))
      ensures Groups(user) == old(Groups(user)) - {idx}
      ensures Groups(!user) == old(Groups(!user)) && Used(!user) == old(Used(!user))
    {
      ReleaseTiles(Used(user), Groups(user), idx);
      assert AllAre(Used(user), idx, cnt, true);
      var freed := SetRange(Used(user), idx, cnt, false);
      hide Tiled, SetRange, AllAre;
      if user {
        userPool, userGroups := userPool.(used := freed), userGroups - {idx};
      } else {
        kernelPool, kernelGroups := kernelPool.(used := freed), kernelGroups - {idx};
      }
    }
  }
}
