/** Entries of page directories and page tables: an address and flags in one 32-bit word.
    The flags are present 0x1, writable 0x2, user 0x4, accessed 0x20 and dirty 0x40. */
module Pte {
  type Word = bv32

  predicate IsNull(w: Word) { w == 0 }

  predicate IsPage(addr: Word) { addr & 0xfff == 0 }

  predicate Present(w: Word) { w & 0x1 != 0 }

  predicate Writable(w: Word) { w & 0x2 != 0 }

  predicate User(w: Word) { w & 0x4 != 0 }

  predicate Accessed(w: Word) { w & 0x20 != 0 }

  predicate Dirty(w: Word) { w & 0x40 != 0 }

  /** pde_get_pt and pte_get_page: the address bits. */
  function AddrOf(w: Word): Word { w & 0xfffff000 }

  function PdeCreate(pt: Word): Word { pt | 0x4 | 0x1 | 0x2 }

  function PteCreateUser(page: Word, writable: bool): Word {
    page | 0x1 | (if writable then 0x2 else 0) | 0x4
  }

  function SetDirty(w: Word, on: bool): Word { if on then w | 0x40 else w & !0x40 }

  function SetAccessed(w: Word, on: bool): Word { if on then w | 0x20 else w & !0x20 }

  function ClearPresent(w: Word): Word { w & !0x1 }

  lemma PdeFields(pt: Word)
    requires IsPage(pt)
    ensures !IsNull(PdeCreate(pt)) && Present(PdeCreate(pt)) && AddrOf(PdeCreate(pt)) == pt
  {
  }

  /** A new entry reads back: present, for users, as writable as asked, neither accessed nor
      dirty, for that page. */
  lemma PteFields(page: Word, writable: bool)
    requires IsPage(page)
    ensures AddrOf(PteCreateUser(page, writable)) == page
    ensures Present(PteCreateUser(page, writable)) && User(PteCreateUser(page, writable))
    ensures Writable(PteCreateUser(page, writable)) == writable
    ensures !Accessed(PteCreateUser(page, writable)) && !Dirty(PteCreateUser(page, writable))
  {
  }

  lemma SetDirtyAddr(w: Word, on: bool)
    ensures AddrOf(SetDirty(w, on)) == AddrOf(w)
  {
  }

  lemma SetDirtyPresent(w: Word, on: bool)
    ensures Present(SetDirty(w, on)) == Present(w)
  {
  }

  lemma SetDirtyWritable(w: Word, on: bool)
    ensures Writable(SetDirty(w, on)) == Writable(w)
  {
  }

  lemma SetDirtyUser(w: Word, on: bool)
    ensures User(SetDirty(w, on)) == User(w)
  {
  }

  lemma SetDirtyAccessed(w: Word, on: bool)
    ensures Accessed(SetDirty(w, on)) == Accessed(w)
  {
  }

  lemma SetDirtyDirty(w: Word, on: bool)
    ensures Dirty(SetDirty(w, on)) == on
  {
  }

  lemma SetAccessedAddr(w: Word, on: bool)
    ensures AddrOf(SetAccessed(w, on)) == AddrOf(w)
  {
  }

  lemma SetAccessedPresent(w: Word, on: bool)
    ensures Present(SetAccessed(w, on)) == Present(w)
  {
  }

  lemma SetAccessedWritable(w: Word, on: bool)
    ensures Writable(SetAccessed(w, on)) == Writable(w)
  {
  }

  lemma SetAccessedUser(w: Word, on: bool)
    ensures User(SetAccessed(w, on)) == User(w)
  {
  }

  lemma SetAccessedAccessed(w: Word, on: bool)
    ensures Accessed(SetAccessed(w, on)) == on
  {
  }

  lemma SetAccessedDirty(w: Word, on: bool)
    ensures Dirty(SetAccessed(w, on)) == Dirty(w)
  {
  }

  lemma ClearPresentAddr(w: Word)
    ensures AddrOf(ClearPresent(w)) == AddrOf(w)
  {
  }

  lemma ClearPresentPresent(w: Word)
    ensures !Present(ClearPresent(w))
  {
  }

  lemma ClearPresentWritable(w: Word)
    ensures Writable(ClearPresent(w)) == Writable(w)
  {
  }

  lemma ClearPresentUser(w: Word)
    ensures User(ClearPresent(w)) == User(w)
  {
  }

  lemma ClearPresentAccessed(w: Word)
    ensures Accessed(ClearPresent(w)) == Accessed(w)
  {
  }

  lemma ClearPresentDirty(w: Word)
    ensures Dirty(ClearPresent(w)) == Dirty(w)
  {
  }

  /** Setting or clearing the dirty bit changes nothing else. */
  lemma SetDirtyAlone(w: Word, on: bool)
    ensures AddrOf(SetDirty(w, on)) == AddrOf(w)
    ensures Present(SetDirty(w, on)) == Present(w)
    ensures Writable(SetDirty(w, on)) == Writable(w)
    ensures User(SetDirty(w, on)) == User(w)
    ensures Accessed(SetDirty(w, on)) == Accessed(w)
    ensures Dirty(SetDirty(w, on)) == on
  {
    hide *;
    SetDirtyAddr(w, on);
    SetDirtyPresent(w, on);
    SetDirtyWritable(w, on);
    SetDirtyUser(w, on);
    SetDirtyAccessed(w, on);
    SetDirtyDirty(w, on);
  }

  /** Setting or clearing the accessed bit changes nothing else. */
  lemma SetAccessedAlone(w: Word, on: bool)
    ensures AddrOf(SetAccessed(w, on)) == AddrOf(w)
    ensures Present(SetAccessed(w, on)) == Present(w)
    ensures Writable(SetAccessed(w, on)) == Writable(w)
    ensures User(SetAccessed(w, on)) == User(w)
    ensures Accessed(SetAccessed(w, on)) == on
    ensures Dirty(SetAccessed(w, on)) == Dirty(w)
  {
    hide *;
    SetAccessedAddr(w, on);
    SetAccessedPresent(w, on);
    SetAccessedWritable(w, on);
    SetAccessedUser(w, on);
    SetAccessedAccessed(w, on);
    SetAccessedDirty(w, on);
  }

  /** Clearing the present bit changes nothing else. */
  lemma ClearPresentAlone(w: Word)
    ensures AddrOf(ClearPresent(w)) == AddrOf(w)
    ensures !Present(ClearPresent(w))
    ensures Writable(ClearPresent(w)) == Writable(w)
    ensures User(ClearPresent(w)) == User(w)
    ensures Accessed(ClearPresent(w)) == Accessed(w)
    ensures Dirty(ClearPresent(w)) == Dirty(w)
  {
    hide *;
    ClearPresentAddr(w);
    ClearPresentPresent(w);
    ClearPresentWritable(w);
    ClearPresentUser(w);
    ClearPresentAccessed(w);
    ClearPresentDirty(w);
  }

  lemma NullAbsent(w: Word)
    ensures IsNull(w) ==> !Present(w)
  {
  }

  lemma NullIsAbsent()
    ensures IsNull(0) && !Present(0)
  {
  }
}
