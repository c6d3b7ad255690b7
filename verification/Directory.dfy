/** A directory: a file of fixed-size slots that acts as a finite map from names to sectors. */
module Directory {
  import opened Common

  const NAME_MAX := 14
  const SLOT_SIZE := 20 // sizeof (struct dir_entry)
  const NAME_OFS := 4
  const IN_USE_OFS := 19

  /** A file name, without its null character. */
  type Name = seq<Byte>

  predicate ValidName(name: Name) {
    1 <= |name| <= NAME_MAX && forall i :: 0 <= i < |name| ==> name[i] != 0
  }

  // ---------- slots ----------

  type Slot = s: seq<Byte> | |s| == SLOT_SIZE witness seq(SLOT_SIZE, _ => 0)

  const BLANK: Slot := seq(SLOT_SIZE, _ => 0)

  function SectorField(e: Slot): nat {
    (e[0] as int) + 0x100 * (e[1] as int) + 0x1_0000 * (e[2] as int) + 0x100_0000 * (e[3] as int)
  }

  predicate InUse(e: Slot) { e[IN_USE_OFS] != 0 }

  function UpToNul(s: seq<Byte>): seq<Byte> {
    if s == [] || s[0] == 0 then [] else [s[0]] + UpToNul(s[1..])
  }

  function NameField(e: Slot): Name { UpToNul(e[NAME_OFS..IN_USE_OFS]) }

  /** dir_add fills in a slot: what follows the name's null character stays. */
  function Filled(e: Slot, name: Name, sector: nat): Slot
    requires ValidName(name) && sector < 0x1_0000_0000
  {
    [sector % 0x100, sector / 0x100 % 0x100, sector / 0x1_0000 % 0x100, sector / 0x100_0000] +
    name + [0] + e[NAME_OFS + |name| + 1..IN_USE_OFS] + [1]
  }

  function Erased(e: Slot): Slot { e[..IN_USE_OFS] + [0] }

  lemma {:induction false} UpToNulIs(name: Name, rest: seq<Byte>)
    requires forall i :: 0 <= i < |name| ==> name[i] != 0
    ensures UpToNul(name + [0] + rest) == name
  {
    if name != [] {
      assert (name + [0] + rest)[1..] == name[1..] + [0] + rest;
      UpToNulIs(name[1..], rest);
    }
  }

  /** A filled slot reads back. */
  lemma FilledReads(e: Slot, name: Name, sector: nat)
    requires ValidName(name) && sector < 0x1_0000_0000
    ensures var r := Filled(e, name, sector);
      InUse(r) && NameField(r) == name && SectorField(r) == sector
  {
    FilledSector(e, name, sector);
    FilledName(e, name, sector);
    hide NameField, SectorField;
  }

  lemma FourBytes(x: nat)
    requires x < 0x1_0000_0000
    ensures x % 0x100 + 0x100 * (x / 0x100 % 0x100) + 0x1_0000 * (x / 0x1_0000 % 0x100) + 0x100_0000 * (x / 0x100_0000) == x
  {
    var a, b, c := x / 0x100, x / 0x1_0000, x / 0x100_0000;
    assert x == 0x100 * a + x % 0x100;
    assert b == a / 0x100 && a == 0x100 * b + a % 0x100;
    assert c == b / 0x100 && b == 0x100 * c + b % 0x100;
  }

  lemma FilledSector(e: Slot, name: Name, sector: nat)
    requires ValidName(name) && sector < 0x1_0000_0000
    ensures SectorField(Filled(e, name, sector)) == sector
  {
    FourBytes(sector);
    var a, b, c, d := sector % 0x100, sector / 0x100 % 0x100, sector / 0x1_0000 % 0x100, sector / 0x100_0000;
    var r: Slot := Filled(e, name, sector);
    assert (r[0] as int) == a && (r[1] as int) == b && (r[2] as int) == c && (r[3] as int) == d;
    hide Filled;
  }

  lemma FilledName(e: Slot, name: Name, sector: nat)
    requires ValidName(name) && sector < 0x1_0000_0000
    ensures NameField(Filled(e, name, sector)) == name
  {
    var r := Filled(e, name, sector);
    var rest := e[NAME_OFS + |name| + 1..IN_USE_OFS];
    UpToNulIs(name, rest);
    hide UpToNul;
    assert r[NAME_OFS..IN_USE_OFS] == name + [0] + rest;
  }

  // ---------- the file ----------

  predicate WholeSlots(file: seq<Byte>) { |file| % SLOT_SIZE == 0 }

  function SlotCnt(file: seq<Byte>): nat { |file| / SLOT_SIZE }

  function SlotAt(file: seq<Byte>, i: nat): Slot
    requires i < SlotCnt(file)
  {
    file[SLOT_SIZE * i..SLOT_SIZE * i + SLOT_SIZE]
  }

  /** inode_write_at of one slot. */
  function PutSlot(file: seq<Byte>, i: nat, e: Slot): (r: seq<Byte>)
    requires i < SlotCnt(file)
    ensures |r| == |file|
  {
    file[..SLOT_SIZE * i] + e + file[SLOT_SIZE * i + SLOT_SIZE..]
  }

  lemma PutSlotReads(file: seq<Byte>, i: nat, e: Slot, j: nat)
    requires i < SlotCnt(file) && j < SlotCnt(file)
    ensures SlotAt(PutSlot(file, i, e), j) == if j == i then e else SlotAt(file, j)
  {
    var r, low := PutSlot(file, i, e), SLOT_SIZE * j;
    if j == i {
      assert r[low..low + SLOT_SIZE] == e;
    } else {
      forall k | low <= k < low + SLOT_SIZE
        ensures r[k] == file[k]
      {
        assert k < SLOT_SIZE * i || k >= SLOT_SIZE * i + SLOT_SIZE;
      }
      assert r[low..low + SLOT_SIZE] == file[low..low + SLOT_SIZE];
    }
  }

  /** Slot i binds the name. */
  predicate Binds(file: seq<Byte>, i: nat, name: Name)
    requires i < SlotCnt(file)
  {
    InUse(SlotAt(file, i)) && NameField(SlotAt(file, i)) == name
  }

  /** Whole slots, and names in use distinct and valid: every directory is like this. */
  ghost predicate Dir(file: seq<Byte>) {
    && WholeSlots(file)
    && (forall i :: 0 <= i < SlotCnt(file) && InUse(SlotAt(file, i)) ==> ValidName(NameField(SlotAt(file, i))))
    && (forall i, j :: 0 <= i < j < SlotCnt(file) && InUse(SlotAt(file, i)) && InUse(SlotAt(file, j)) ==>
        NameField(SlotAt(file, i)) != NameField(SlotAt(file, j)))
  }

  /** The map that a directory represents. */
  ghost function Bindings(file: seq<Byte>): map<Name, nat>
    requires Dir(file)
  {
    map i | 0 <= i < SlotCnt(file) && InUse(SlotAt(file, i)) :: NameField(SlotAt(file, i)) := SectorField(SlotAt(file, i))
  }

  lemma BindingOf(file: seq<Byte>, name: Name)
    requires Dir(file)
    ensures name in Bindings(file) <==> exists i :: 0 <= i < SlotCnt(file) && Binds(file, i, name)
    ensures forall i :: 0 <= i < SlotCnt(file) && Binds(file, i, name) ==> Bindings(file)[name] == SectorField(SlotAt(file, i))
  {
    if name in Bindings(file) {
      var i :| 0 <= i < SlotCnt(file) && InUse(SlotAt(file, i)) && NameField(SlotAt(file, i)) == name;
      assert Binds(file, i, name);
    }
  }

  // ---------- the operations ----------

  /** lookup from slot i on. */
  function Lookup(file: seq<Byte>, name: Name, i: nat): (r: Option<nat>)
    requires i <= SlotCnt(file)
    ensures r.Some? ==> i <= r.value < SlotCnt(file) && Binds(file, r.value, name)
    ensures r.None? ==> forall j :: i <= j < SlotCnt(file) ==> !Binds(file, j, name)
    decreases SlotCnt(file) - i
  {
    if i == SlotCnt(file) then None
    else if Binds(file, i, name) then Some(i)
    else Lookup(file, name, i + 1)
  }

  /** The first slot from i on that is not in use, or the number of slots. */
  function FreeSlot(file: seq<Byte>, i: nat): (r: nat)
    requires i <= SlotCnt(file)
    ensures i <= r <= SlotCnt(file)
    ensures r < SlotCnt(file) ==> !InUse(SlotAt(file, r))
    ensures forall j :: i <= j < r ==> InUse(SlotAt(file, j))
    decreases SlotCnt(file) - i
  {
    if i == SlotCnt(file) || !InUse(SlotAt(file, i)) then i else FreeSlot(file, i + 1)
  }

  /** dir_add. */
  function Add(file: seq<Byte>, name: Name, sector: nat): (r: (seq<Byte>, bool))
    requires sector < 0x1_0000_0000 && forall i :: 0 <= i < |name| ==> name[i] != 0
    ensures |r.0| == |file|
  {
    var i := FreeSlot(file, 0);
    if name == [] || |name| > NAME_MAX then (file, false)
    else if Lookup(file, name, 0).Some? then (file, false)
    else if i == SlotCnt(file) then (file, false)
    else (PutSlot(file, i, Filled(SlotAt(file, i), name, sector)), true)
  }

  /** dir_remove on the directory itself. */
  function Remove(file: seq<Byte>, name: Name): (r: (seq<Byte>, Option<nat>))
    ensures |r.0| == |file|
  {
    match Lookup(file, name, 0)
    case None => (file, None)
    case Some(i) => (PutSlot(file, i, Erased(SlotAt(file, i))), Some(SectorField(SlotAt(file, i))))
  }

  /** dir_readdir from slot i on: the name, if there is one, and the slot after it. */
  function ReadDir(file: seq<Byte>, i: nat): (r: (Option<Name>, nat))
    requires i <= SlotCnt(file)
    ensures i <= r.1 <= SlotCnt(file) && (r.0.Some? ==> i < r.1)
    decreases SlotCnt(file) - i
  {
    if i == SlotCnt(file) then (None, i)
    else if InUse(SlotAt(file, i)) then (Some(NameField(SlotAt(file, i))), i + 1)
    else ReadDir(file, i + 1)
  }

  // ---------- a finite map with a slot limit ----------

  /** lookup finds exactly what the map holds. */
  lemma LookupAgrees(file: seq<Byte>, name: Name)
    requires Dir(file)
    ensures Lookup(file, name, 0).Some? <==> name in Bindings(file)
    ensures name in Bindings(file) ==> Bindings(file)[name] == SectorField(SlotAt(file, Lookup(file, name, 0).value))
  {
    BindingOf(file, name);
  }

  lemma PutSlots(file: seq<Byte>, i: nat, e: Slot)
    requires i < SlotCnt(file)
    ensures forall j :: 0 <= j < SlotCnt(file) ==>
      SlotAt(PutSlot(file, i, e), j) == if j == i then e else SlotAt(file, j)
  {
    forall j | 0 <= j < SlotCnt(file)
      ensures SlotAt(PutSlot(file, i, e), j) == if j == i then e else SlotAt(file, j)
    {
      PutSlotReads(file, i, e, j);
    }
  }

  /** dir_add inserts exactly one binding, or changes nothing; it succeeds if and only if the
      name is valid and not bound and a slot is free. */
  lemma AddInserts(file: seq<Byte>, name: Name, sector: nat)
    requires Dir(file) && sector < 0x1_0000_0000 && forall i :: 0 <= i < |name| ==> name[i] != 0
    ensures var (r, ok) := Add(file, name, sector);
      && Dir(r)
      && (ok <==> ValidName(name) && name !in Bindings(file) && FreeSlot(file, 0) < SlotCnt(file))
      && (if ok then Bindings(r) == Bindings(file)[name := sector] else r == file)
  {
    LookupAgrees(file, name);
    var (r, ok) := Add(file, name, sector);
    if ok {
      var i := FreeSlot(file, 0);
      FilledReads(SlotAt(file, i), name, sector);
      PutSlots(file, i, Filled(SlotAt(file, i), name, sector));
      BindingOf(file, name);
      NewBinding(file, r, i, name, sector);
    }
  }

  /** A slot that was free now binds a new name. */
  lemma NewBinding(file: seq<Byte>, r: seq<Byte>, i: nat, name: Name, sector: nat)
    requires Dir(file) && |r| == |file| && i < SlotCnt(file) && !InUse(SlotAt(file, i)) && ValidName(name)
    requires forall j :: 0 <= j < SlotCnt(file) ==> !Binds(file, j, name)
    requires InUse(SlotAt(r, i)) && NameField(SlotAt(r, i)) == name && SectorField(SlotAt(r, i)) == sector
    requires forall j :: 0 <= j < SlotCnt(file) && j != i ==> SlotAt(r, j) == SlotAt(file, j)
    ensures Dir(r) && Bindings(r) == Bindings(file)[name := sector]
  {
    OneMoreName(file, r, i, name);
    assert Binds(r, i, name);
    hide *;
    forall n
      ensures n in Bindings(r) <==> n == name || n in Bindings(file)
      ensures n in Bindings(r) ==> Bindings(r)[n] == (if n == name then sector else Bindings(file)[n])
    {
      SameElsewhere(file, r, i, n);
      if n == name {
        BindingOf(r, n);
      } else {
        NotHere(file, i, n);
        OtherHere(r, i, name, n);
      }
    }
    OneMore(Bindings(file), Bindings(r), name, sector);
  }

  lemma OneMore(m: map<Name, nat>, r: map<Name, nat>, name: Name, sector: nat)
    requires forall n :: n in r <==> n == name || n in m
    requires forall n :: n in r ==> r[n] == if n == name then sector else m[n]
    ensures r == m[name := sector]
  {
  }

  lemma OneLess(m: map<Name, nat>, r: map<Name, nat>, name: Name)
    requires forall n :: n in r <==> n != name && n in m
    requires forall n :: n in r ==> r[n] == m[n]
    ensures r == m - {name}
  {
  }

  /** A slot that is free, or binds another name, binds no n. */
  lemma NotHere(file: seq<Byte>, i: nat, n: Name)
    requires i < SlotCnt(file) && !InUse(SlotAt(file, i))
    ensures !Binds(file, i, n)
  {
  }

  lemma OtherHere(file: seq<Byte>, i: nat, name: Name, n: Name)
    requires i < SlotCnt(file) && NameField(SlotAt(file, i)) == name && n != name
    ensures !Binds(file, i, n)
  {
  }

  /** A name that slot i binds in neither directory is bound alike in both. */
  lemma SameElsewhere(file: seq<Byte>, r: seq<Byte>, i: nat, n: Name)
    requires Dir(file) && Dir(r) && |r| == |file| && i < SlotCnt(file)
    requires forall j :: 0 <= j < SlotCnt(file) && j != i ==> SlotAt(r, j) == SlotAt(file, j)
    ensures !Binds(file, i, n) && !Binds(r, i, n) ==>
      (n in Bindings(r) <==> n in Bindings(file)) && (n in Bindings(r) ==> Bindings(r)[n] == Bindings(file)[n])
  {
    BindingOf(r, n);
    BindingOf(file, n);
    hide Dir, Bindings, SlotAt, NameField, InUse, SectorField;
    assert forall j :: 0 <= j < SlotCnt(file) && j != i ==> Binds(r, j, n) == Binds(file, j, n);
    hide Binds;
    if n in Bindings(r) && !Binds(r, i, n) {
      var j :| 0 <= j < SlotCnt(r) && Binds(r, j, n);
      assert Binds(file, j, n);
    }
  }

  lemma OneMoreName(file: seq<Byte>, r: seq<Byte>, i: nat, name: Name)
    requires Dir(file) && |r| == |file| && i < SlotCnt(file) && !InUse(SlotAt(file, i)) && ValidName(name)
    requires forall j :: 0 <= j < SlotCnt(file) ==> !Binds(file, j, name)
    requires InUse(SlotAt(r, i)) && NameField(SlotAt(r, i)) == name
    requires forall j :: 0 <= j < SlotCnt(file) && j != i ==> SlotAt(r, j) == SlotAt(file, j)
    ensures Dir(r)
  {
    hide NameField, InUse, SlotAt, ValidName;
    forall j | 0 <= j < SlotCnt(file) && InUse(SlotAt(file, j))
      ensures NameField(SlotAt(file, j)) != name
    {
      assert !Binds(file, j, name);
    }
    assert forall j :: 0 <= j < SlotCnt(r) && j != i ==> SlotAt(r, j) == SlotAt(file, j);
  }

  /** dir_remove deletes exactly one binding and yields its sector, or changes nothing; it
      succeeds if and only if the name is bound. */
  lemma RemoveDeletes(file: seq<Byte>, name: Name)
    requires Dir(file)
    ensures var (r, sector) := Remove(file, name);
      && Dir(r)
      && (sector.Some? <==> name in Bindings(file))
      && (if sector.Some? then sector.value == Bindings(file)[name] && Bindings(r) == Bindings(file) - {name} else r == file)
  {
    LookupAgrees(file, name);
    var (r, sector) := Remove(file, name);
    if sector.Some? {
      var i := Lookup(file, name, 0).value;
      PutSlots(file, i, Erased(SlotAt(file, i)));
      LostBinding(file, r, i, name);
    }
  }

  lemma LostBinding(file: seq<Byte>, r: seq<Byte>, i: nat, name: Name)
    requires Dir(file) && |r| == |file| && i < SlotCnt(file) && Binds(file, i, name) && !InUse(SlotAt(r, i))
    requires forall j :: 0 <= j < SlotCnt(file) && j != i ==> SlotAt(r, j) == SlotAt(file, j)
    ensures Dir(r) && Bindings(r) == Bindings(file) - {name}
  {
    OneNameLess(file, r, i);
    NameGone(file, r, i, name);
    assert NameField(SlotAt(file, i)) == name;
    hide *;
    forall n
      ensures n in Bindings(r) <==> n != name && n in Bindings(file)
      ensures n in Bindings(r) ==> Bindings(r)[n] == Bindings(file)[n]
    {
      SameElsewhere(file, r, i, n);
      NotHere(r, i, n);
      if n != name {
        OtherHere(file, i, name, n);
      }
    }
    OneLess(Bindings(file), Bindings(r), name);
  }

  lemma NameGone(file: seq<Byte>, r: seq<Byte>, i: nat, name: Name)
    requires Dir(file) && Dir(r) && |r| == |file| && i < SlotCnt(file) && Binds(file, i, name) && !InUse(SlotAt(r, i))
    requires forall j :: 0 <= j < SlotCnt(file) && j != i ==> SlotAt(r, j) == SlotAt(file, j)
    ensures name !in Bindings(r)
  {
    BindingOf(r, name);
    hide Bindings, SlotAt, NameField, InUse, SectorField, ValidName;
  }

  lemma OneNameLess(file: seq<Byte>, r: seq<Byte>, i: nat)
    requires Dir(file) && |r| == |file| && i < SlotCnt(file) && !InUse(SlotAt(r, i))
    requires forall j :: 0 <= j < SlotCnt(file) && j != i ==> SlotAt(r, j) == SlotAt(file, j)
    ensures Dir(r)
  {
    hide NameField, InUse, SlotAt, ValidName;
    assert forall j :: 0 <= j < SlotCnt(r) && j != i ==> SlotAt(r, j) == SlotAt(file, j);
  }

  // ---------- iteration ----------

  /** The names that dir_readdir returns, one call after the other, from slot i on. */
  ghost function Listing(file: seq<Byte>, i: nat): seq<Name>
    requires i <= SlotCnt(file)
    decreases SlotCnt(file) - i
  {
    var (name, next) := ReadDir(file, i);
    if name.None? then [] else [name.value] + Listing(file, next)
  }

  lemma {:induction false} ReadDirFinds(file: seq<Byte>, i: nat)
    requires i <= SlotCnt(file)
    ensures var (name, next) := ReadDir(file, i);
      if name.Some? then
        && Binds(file, next - 1, name.value)
        && forall j :: i <= j < next - 1 ==> !InUse(SlotAt(file, j))
      else forall j :: i <= j < SlotCnt(file) ==> !InUse(SlotAt(file, j))
    decreases SlotCnt(file) - i
  {
    if i < SlotCnt(file) && !InUse(SlotAt(file, i)) {
      ReadDirFinds(file, i + 1);
    }
  }

  /** Iterating over an unmodified directory yields every bound name exactly once. */
  lemma {:induction false} ListsEachOnce(file: seq<Byte>, i: nat, name: Name)
    requires Dir(file) && i <= SlotCnt(file)
    ensures multiset(Listing(file, i))[name] == One(exists j :: i <= j < SlotCnt(file) && Binds(file, j, name))
    decreases SlotCnt(file) - i
  {
    hide NameField, InUse, SlotAt;
    ReadDirFinds(file, i);
    var (found, next) := ReadDir(file, i);
    if found.Some? {
      ListsEachOnce(file, next, name);
      assert Binds(file, next - 1, found.value);
      assert forall j :: i <= j < next - 1 ==> !Binds(file, j, name);
    } else {
      assert forall j :: i <= j < SlotCnt(file) ==> !Binds(file, j, name);
    }
  }

  lemma ListsTheMap(file: seq<Byte>, name: Name)
    requires Dir(file)
    ensures multiset(Listing(file, 0))[name] == One(name in Bindings(file))
  {
    ListsEachOnce(file, 0, name);
    BindingOf(file, name);
  }

  // ---------- the loops over the file ----------

  /** An open directory: the contents of its file, and the position of dir_readdir. */
  class OpenDir {
    var file: seq<Byte>
    var pos: nat

    /** inode_read_at of one slot, which is short only at the end of the file. */
    method ReadSlot(ofs: nat) returns (e: Slot, n: nat)
      ensures n == SLOT_SIZE <==> ofs + SLOT_SIZE <= |file|
      ensures n == SLOT_SIZE ==> e == file[ofs..ofs + SLOT_SIZE]
    {
      if ofs + SLOT_SIZE <= |file| {
        return file[ofs..ofs + SLOT_SIZE], SLOT_SIZE;
      }
      return BLANK, if ofs < |file| then |file| - ofs else 0;
    }

    method Find(name: Name) returns (ofs: nat, found: bool, e: Slot)
      ensures found <==> Lookup(file, name, 0).Some?
      ensures found ==> ofs == SLOT_SIZE * Lookup(file, name, 0).value && e == SlotAt(file, Lookup(file, name, 0).value)
    {
      ghost var i := 0;
      ofs := 0;
      var n;
      e, n := ReadSlot(ofs);
      while n == SLOT_SIZE
        invariant 0 <= i <= SlotCnt(file) && ofs == SLOT_SIZE * i
        invariant Lookup(file, name, i) == Lookup(file, name, 0)
        invariant n == SLOT_SIZE <==> ofs + SLOT_SIZE <= |file|
        invariant n == SLOT_SIZE ==> e == file[ofs..ofs + SLOT_SIZE]
        decreases |file| - ofs
      {
        assert e == SlotAt(file, i);
        if InUse(e) && NameField(e) == name {
          return ofs, true, e;
        }
        ofs := ofs + SLOT_SIZE;
        i := i + 1;
        e, n := ReadSlot(ofs);
      }
      return ofs, false, e;
    }

    /** dir_add. */
    method AddEntry(name: Name, sector: nat) returns (success: bool)
      requires WholeSlots(file) && sector < 0x1_0000_0000 && forall i :: 0 <= i < |name| ==> name[i] != 0
      modifies this`file
      ensures (file, success) == Add(old(file), name, sector)
    {
      if name == [] || |name| > NAME_MAX {
        return false;
      }
      var at, found, slot := Find(name);
      if found {
        return false;
      }
      var i, ofs := 0, 0;
      var e, n := ReadSlot(ofs);
      while n == SLOT_SIZE && InUse(e)
        invariant file == old(file) && 0 <= i <= SlotCnt(file) && ofs == SLOT_SIZE * i
        invariant FreeSlot(file, i) == FreeSlot(file, 0)
        invariant n == SLOT_SIZE <==> ofs + SLOT_SIZE <= |file|
        invariant n == SLOT_SIZE ==> e == file[ofs..ofs + SLOT_SIZE]
        decreases |file| - ofs
      {
        assert e == SlotAt(file, i);
        ofs := ofs + SLOT_SIZE;
        i := i + 1;
        e, n := ReadSlot(ofs);
      }
      if n != SLOT_SIZE {
        // The write at the end of the file transfers nothing.
        assert |file| == SLOT_SIZE * SlotCnt(file) && ofs == |file|;
        return false;
      }
      assert e == SlotAt(file, i);
      file := file[..ofs] + Filled(e, name, sector) + file[ofs + SLOT_SIZE..];
      return true;
    }

    /** dir_remove on the directory itself. */
    method RemoveEntry(name: Name) returns (sector: Option<nat>)
      modifies this`file
      ensures (file, sector) == Remove(old(file), name)
    {
      var ofs, found, e := Find(name);
      if !found {
        return None;
      }
      file := file[..ofs] + Erased(e) + file[ofs + SLOT_SIZE..];
      return Some(SectorField(e));
    }

    /** dir_readdir. */
    method NextName() returns (name: Option<Name>)
      requires pos % SLOT_SIZE == 0 && pos / SLOT_SIZE <= SlotCnt(file)
      modifies this`pos
      ensures pos % SLOT_SIZE == 0 && (name, pos / SLOT_SIZE) == ReadDir(file, old(pos) / SLOT_SIZE)
    {
      var e, n := ReadSlot(pos);
      while n == SLOT_SIZE
        invariant pos % SLOT_SIZE == 0 && pos / SLOT_SIZE <= SlotCnt(file)
        invariant ReadDir(file, pos / SLOT_SIZE) == ReadDir(file, old(pos) / SLOT_SIZE)
        invariant n == SLOT_SIZE <==> pos + SLOT_SIZE <= |file|
        invariant n == SLOT_SIZE ==> e == file[pos..pos + SLOT_SIZE]
        decreases |file| - pos
      {
        assert e == SlotAt(file, pos / SLOT_SIZE);
        pos := pos + SLOT_SIZE;
        if InUse(e) {
          return Some(NameField(e));
        }
        e, n := ReadSlot(pos);
      }
      return None;
    }
  }
}
