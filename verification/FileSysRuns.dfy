/** The calls of the file system, and what every sequence of them keeps. */
module FileSysRuns {
  import opened Common
  import opened Bitmap
  import opened Directory
  import opened Inode
  import opened FileSysState
  import opened FileSysSteps

  /** Which of the steps that can fail succeed: opening the root directory, writing the free
      map, allocating memory, writing the free map again, allocating the open file. */
  datatype Luck = Luck(root: bool, map1: bool, memory: bool, map2: bool, file: bool)

  predicate NoNul(name: Name) {
    forall i :: 0 <= i < |name| ==> name[i] != 0
  }

  // ---------- the calls ----------

  /** filesys_create. */
  function Create(fs: Fs, name: Name, size: nat, luck: Luck): (Fs, bool)
    requires Inv(fs) && NoNul(name)
  {
    match Scan(fs.used, 0, 1)
    case None => (fs, false)
    case Some(s) =>
      if !luck.root || !luck.map1 || !luck.memory then (fs, false)
      else
        match Scan(SetRange(fs.used, s, 1, true), 0, SectorsFor(size))
        case None => (fs, false)
        case Some(start) =>
          if !luck.map2 then (fs, false)
          else
            var e := Extent(start, size);
            EmptyStartsAtZero(SetRange(fs.used, s, 1, true), size);
            LeakKeeps(fs, s, e);
            var (dir, ok) := Add(fs.dir, name, s);
            if ok then (NewNode(fs, s, e).(dir := dir), true) else (DropInode(NewNode(fs, s, e), s), false)
  }

  lemma EmptyStartsAtZero(bits: seq<bool>, size: nat)
    ensures SectorsFor(size) == 0 ==> Scan(bits, 0, 0) == Some(0)
  {
  }

  /** filesys_open: the new file, if there is one. */
  function Open(fs: Fs, name: Name, luck: Luck): (Fs, Option<nat>)
    requires Inv(fs)
  {
    match Lookup(fs.dir, name, 0)
    case None => (fs, None)
    case Some(i) =>
      var s := SectorField(SlotAt(fs.dir, i));
      LinkExists(fs, name);
      var (r, ok) := OpenNode(fs, s, luck.memory);
      OpenKeeps(fs, s, luck.memory);
      if !luck.root || !ok then (fs, None) else TakeFile(r, s, luck)
  }

  lemma Closable(fs: Fs, s: nat)
    requires Almost(fs, Some(s))
    ensures CanClose(fs, s)
  {
    hide Almost;
    CloseKeeps(fs, s);
  }

  /** file_open of the inode s, which is open. */
  function TakeFile(fs: Fs, s: nat, luck: Luck): (Fs, Option<nat>)
    requires Almost(fs, Some(s))
  {
    Closable(fs, s);
    if luck.file then (fs.(files := fs.files + [Some(File(s, false))]), Some(|fs.files|))
    else (CloseNode(fs, s), None)
  }

  /** file_reopen. */
  function Reopen(fs: Fs, h: nat, luck: Luck): (Fs, Option<nat>)
    requires Inv(fs) && h < |fs.files| && fs.files[h].Some?
  {
    var s := fs.files[h].value.sector;
    FileIsOpen(fs, h);
    OpenKeeps(fs, s, false);
    TakeFile(OpenNode(fs, s, false).0, s, luck)
  }

  /** file_deny_write, and with deny false file_allow_write. */
  function SetDeny(fs: Fs, h: nat, deny: bool): Fs
    requires h < |fs.files| && fs.files[h].Some?
  {
    var f := fs.files[h].value;
    if f.deny == deny then fs
    else AdjustDeny(fs.(files := fs.files[h := Some(f.(deny := deny))]), f.sector, if deny then 1 else -1)
  }

  /** file_close. */
  function Close(fs: Fs, h: nat): Fs
    requires Inv(fs) && h < |fs.files| && fs.files[h].Some?
  {
    var s := fs.files[h].value.sector;
    AllowKeeps(fs, h);
    var r := SetDeny(fs, h, false);
    DropFileKeeps(r, h, s);
    CloseKeeps(r.(files := r.files[h := None]), s);
    CloseNode(r.(files := r.files[h := None]), s)
  }

  /** filesys_remove. */
  function Delete(fs: Fs, name: Name, luck: Luck): (Fs, bool)
    requires Inv(fs)
  {
    if !luck.root || Lookup(fs.dir, name, 0).None? then (fs, false)
    else
      LinkExists(fs, name);
      var (dir, sector) := Remove(fs.dir, name);
      var s := sector.value;
      OpenKeeps(fs, s, luck.memory);
      var (r, ok) := OpenNode(fs, s, luck.memory);
      if !ok then (fs, false)
      else
        RemoveDeletes(fs.dir, name);
        UnlinkKeeps(r, s, name, dir);
        CloseKeeps(MarkRemoved(r.(dir := dir), s), s);
        (CloseNode(MarkRemoved(r.(dir := dir), s), s), true)
  }

  // ---------- what they rest on ----------

  lemma LinkExists(fs: Fs, name: Name)
    requires Inv(fs)
    ensures Dir(fs.dir)
    ensures Lookup(fs.dir, name, 0).Some? ==>
      && name in Bindings(fs.dir) && Bindings(fs.dir)[name] in fs.inodes && Bindings(fs.dir)[name] > ROOT_DIR_SECTOR
      && SectorField(SlotAt(fs.dir, Lookup(fs.dir, name, 0).value)) == Bindings(fs.dir)[name]
      && Remove(fs.dir, name).1 == Some(Bindings(fs.dir)[name])
  {
    hide Tiled, Owned, Table, Alive, Bindings;
    LookupAgrees(fs.dir, name);
  }

  lemma FileIsOpen(fs: Fs, h: nat)
    requires Inv(fs) && h < |fs.files| && fs.files[h].Some?
    ensures IsOpen(fs.open, fs.files[h].value.sector) && fs.files[h].value.sector in fs.inodes
  {
    hide Tiled, Owned, Linked, Alive;
    var s := fs.files[h].value.sector;
    Found(fs.open, s);
    SectorExists(fs.open, fs.files, fs.inodes, FindOpen(fs.open, s, 0), None);
  }

  lemma AllowKeeps(fs: Fs, h: nat)
    requires Inv(fs) && h < |fs.files| && fs.files[h].Some?
    ensures var r := SetDeny(fs, h, false);
      Inv(r) && r == fs.(open := r.open, files := fs.files[h := Some(File(fs.files[h].value.sector, false))])
  {
    var f := fs.files[h].value;
    if f.deny {
      DenyKeeps(fs, h, f.sector, false);
    } else {
      assert fs.files[h := Some(f)] == fs.files;
    }
  }

  // ---------- what every call keeps ----------

  /** filesys_create succeeds only as a new name for a new file; otherwise only the data of
      the failed file can be lost. */
  lemma CreateKeeps(fs: Fs, name: Name, size: nat, luck: Luck)
    requires Inv(fs) && NoNul(name)
    ensures var (r, ok) := Create(fs, name, size, luck);
      && Inv(r)
      && (ok ==> Bindings(r.dir).Keys == Bindings(fs.dir).Keys + {name} && name !in Bindings(fs.dir))
      && (!ok ==> r == fs.(used := r.used, groups := r.groups))
  {
    hide Tiled, Owned, Table, Alive, Bindings, Dir, LinksOk, NewNode, DropInode;
    if luck.root && luck.map1 && luck.memory && luck.map2 && Scan(fs.used, 0, 1).Some? {
      var s := Scan(fs.used, 0, 1).value;
      var used1 := SetRange(fs.used, s, 1, true);
      if Scan(used1, 0, SectorsFor(size)).Some? {
        EmptyStartsAtZero(used1, size);
        EntersOrLeaks(fs, name, s, Extent(Scan(used1, 0, SectorsFor(size)).value, size));
      }
    }
  }

  lemma EntersOrLeaks(fs: Fs, name: Name, s: nat, e: Extent)
    requires Inv(fs) && NoNul(name) && s < 0x1_0000_0000
    requires AllAre(fs.used, s, 1, false) && AllAre(SetRange(fs.used, s, 1, true), e.start, SectorsFor(e.length), false)
    requires SectorsFor(e.length) == 0 ==> e.start == 0
    ensures s in NewNode(fs, s, e).inodes && AllAre(NewNode(fs, s, e).used, s, 1, true)
    ensures var (dir, ok) := Add(fs.dir, name, s);
      var r := if ok then NewNode(fs, s, e).(dir := dir) else DropInode(NewNode(fs, s, e), s);
      && Inv(r)
      && (ok ==> Bindings(r.dir).Keys == Bindings(fs.dir).Keys + {name} && name !in Bindings(fs.dir))
      && (!ok ==> r == fs.(used := r.used, groups := r.groups))
      && (!ok ==> r.groups == if SectorsFor(e.length) > 0 then fs.groups[e.start := Group(SectorsFor(e.length), Leaked)] else fs.groups)
  {
    hide Bindings, Dir, Tiled, Owned, Table, Alive, LinksOk, Add, AllAre;
    LeakKeeps(fs, s, e);
    IsDir(fs);
    AddInserts(fs.dir, name, s);
    var (dir, ok) := Add(fs.dir, name, s);
    if ok {
      LinkKeeps(fs, s, e, name, dir);
      assert Bindings(fs.dir)[name := s].Keys == Bindings(fs.dir).Keys + {name};
    }
  }

  lemma IsDir(fs: Fs)
    requires Inv(fs)
    ensures Dir(fs.dir)
  {
    hide Tiled, Owned, Table, Alive, LinksOk;
  }

  /** Everything that filesys_create allocates before it enters the name is found, and no write
      of the free map fails. */
  predicate Allocates(fs: Fs, size: nat, luck: Luck) {
    && luck.root && luck.map1 && luck.memory && luck.map2
    && Scan(fs.used, 0, 1).Some?
    && Scan(SetRange(fs.used, Scan(fs.used, 0, 1).value, 1, true), 0, SectorsFor(size)).Some?
  }

  /** filesys_create succeeds if and only if its allocations do, the name is valid and not
      bound, and a slot is free.  Space is lost if and only if its allocations succeed, the file
      is not empty, and one of the others is not so. */
  lemma CreateLosesSpace(fs: Fs, name: Name, size: nat, luck: Luck)
    requires Inv(fs) && NoNul(name)
    ensures Dir(fs.dir)
    ensures var (r, ok) := Create(fs, name, size, luck);
      var enters := ValidName(name) && name !in Bindings(fs.dir) && FreeSlot(fs.dir, 0) < SlotCnt(fs.dir);
      && (ok <==> Allocates(fs, size, luck) && enters)
      && (r.inodes == fs.inodes && r.groups != fs.groups <==> Allocates(fs, size, luck) && size > 0 && !enters)
  {
    IsDir(fs);
    if Allocates(fs, size, luck) {
      LosesExactly(fs, name, size, luck);
    } else {
      hide Inv, Bindings, Dir, NewNode, DropInode, Add;
    }
  }

  lemma LosesExactly(fs: Fs, name: Name, size: nat, luck: Luck)
    requires Inv(fs) && NoNul(name) && Allocates(fs, size, luck)
    ensures Dir(fs.dir)
    ensures var (r, ok) := Create(fs, name, size, luck);
      && (ok <==> ValidName(name) && name !in Bindings(fs.dir) && FreeSlot(fs.dir, 0) < SlotCnt(fs.dir))
      && (r.inodes == fs.inodes && r.groups != fs.groups <==> !ok && size > 0)
  {
    var s := Scan(fs.used, 0, 1).value;
    var used1 := SetRange(fs.used, s, 1, true);
    var e := Extent(Scan(used1, 0, SectorsFor(size)).value, size);
    IsDir(fs);
    EmptyStartsAtZero(used1, size);
    EntersOrLeaks(fs, name, s, e);
    AddInserts(fs.dir, name, s);
    TiledWith(fs.used, fs.groups, s, e);
    NotYet(fs, s);
    hide Inv, Bindings, Dir, Tiled, AllAre, Add, DropInode, With;
    if SectorsFor(size) > 0 {
      assert e.start !in fs.groups;
    }
  }

  lemma NotYet(fs: Fs, s: nat)
    requires Inv(fs) && s !in fs.groups
    ensures s !in fs.inodes
  {
    hide Tiled, Table, Alive, Linked;
  }

  lemma TakeKeeps(fs: Fs, s: nat, luck: Luck)
    requires Almost(fs, Some(s))
    ensures Inv(TakeFile(fs, s, luck).0)
  {
    CloseKeeps(fs, s);
    AddFileKeeps(fs, s);
  }

  lemma OpenFileKeeps(fs: Fs, name: Name, luck: Luck)
    requires Inv(fs)
    ensures Inv(Open(fs, name, luck).0)
  {
    hide Almost, Bindings;
    if Lookup(fs.dir, name, 0).Some? {
      LinkExists(fs, name);
      var s := SectorField(SlotAt(fs.dir, Lookup(fs.dir, name, 0).value));
      OpenKeeps(fs, s, luck.memory);
      var (r, ok) := OpenNode(fs, s, luck.memory);
      if luck.root && ok {
        TakeKeeps(r, s, luck);
      }
    }
  }

  lemma ReopenKeeps(fs: Fs, h: nat, luck: Luck)
    requires Inv(fs) && h < |fs.files| && fs.files[h].Some?
    ensures Inv(Reopen(fs, h, luck).0)
  {
    hide Almost;
    FileIsOpen(fs, h);
    var s := fs.files[h].value.sector;
    OpenKeeps(fs, s, false);
    TakeKeeps(OpenNode(fs, s, false).0, s, luck);
  }

  /** What file_close frees: the inode with its data, if it is removed and no other file has
      it open; nothing otherwise. */
  lemma FileCloseKeeps(fs: Fs, h: nat)
    requires Inv(fs) && h < |fs.files| && fs.files[h].Some?
    ensures var r := Close(fs, h); var s := fs.files[h].value.sector;
      && Inv(r) && r.dir == fs.dir && r.files == fs.files[h := None]
      && (if IsRemoved(fs.open, s) && Openers(r.files, s, false) == 0
          then s in fs.inodes && r.inodes == fs.inodes - {s} else r.inodes == fs.inodes && r.groups == fs.groups && r.used == fs.used)
  {
    hide Almost, Openers, SetDeny, IsRemoved;
    var s := fs.files[h].value.sector;
    AllowKeeps(fs, h);
    AllowLeavesRemoved(fs, h, s);
    var r := SetDeny(fs, h, false);
    DropFileKeeps(r, h, s);
    CloseKeeps(r.(files := r.files[h := None]), s);
    assert fs.files[h := Some(File(s, false))][h := None] == fs.files[h := None];
  }

  lemma AllowLeavesRemoved(fs: Fs, h: nat, s: nat)
    requires h < |fs.files| && fs.files[h].Some? && fs.files[h].value.sector == s
    ensures IsRemoved(SetDeny(fs, h, false).open, s) <==> IsRemoved(fs.open, s)
  {
    var i := FindOpen(fs.open, s, 0);
    if fs.files[h].value.deny && i < |fs.open| && fs.open[i].denyCnt > 0 {
      SameRemoved(fs.open, i, fs.open[i].(denyCnt := fs.open[i].denyCnt - 1), s);
    }
  }

  /** filesys_remove takes exactly one name away. */
  lemma DeleteKeeps(fs: Fs, name: Name, luck: Luck)
    requires Inv(fs)
    ensures var (r, ok) := Delete(fs, name, luck);
      && Inv(r) && (!ok ==> r == fs) && r.files == fs.files
      && (ok ==> name in Bindings(fs.dir) && Bindings(r.dir) == Bindings(fs.dir) - {name})
      && (ok ==> var s := Bindings(fs.dir)[name];
          if Openers(fs.files, s, false) == 0 then s in fs.inodes && r.inodes == fs.inodes - {s}
          else r.inodes == fs.inodes && r.groups == fs.groups && r.used == fs.used)
  {
    hide Almost, Bindings, IsRemoved, Openers, Dir, Lookup, Remove;
    if luck.root && Lookup(fs.dir, name, 0).Some? {
      LinkExists(fs, name);
      var (dir, sector) := Remove(fs.dir, name);
      var s := sector.value;
      OpenKeeps(fs, s, luck.memory);
      var (r, ok) := OpenNode(fs, s, luck.memory);
      if ok {
        RemoveDeletes(fs.dir, name);
        UnlinkKeeps(r, s, name, dir);
        CloseKeeps(MarkRemoved(r.(dir := dir), s), s);
      }
    }
  }

  // ---------- runs ----------

  datatype Call =
    | DoCreate(name: Name, size: nat)
    | DoOpen(name: Name)
    | DoReopen(file: nat)
    | DoClose(file: nat)
    | DoDeny(file: nat, deny: bool)
    | DoDelete(name: Name)

  /** Files passed in are open, names are C strings. */
  predicate Enabled(fs: Fs, call: Call) {
    match call
    case DoCreate(name, _) => NoNul(name)
    case DoOpen(_) => true
    case DoReopen(h) => h < |fs.files| && fs.files[h].Some?
    case DoClose(h) => h < |fs.files| && fs.files[h].Some?
    case DoDeny(h, _) => h < |fs.files| && fs.files[h].Some?
    case DoDelete(_) => true
  }

  function After(fs: Fs, call: Call, luck: Luck): Fs
    requires Inv(fs) && Enabled(fs, call)
  {
    match call
    case DoCreate(name, size) => Create(fs, name, size, luck).0
    case DoOpen(name) => Open(fs, name, luck).0
    case DoReopen(h) => Reopen(fs, h, luck).0
    case DoClose(h) => Close(fs, h)
    case DoDeny(h, deny) => SetDeny(fs, h, deny)
    case DoDelete(name) => Delete(fs, name, luck).0
  }

  lemma CallKeeps(fs: Fs, call: Call, luck: Luck)
    requires Inv(fs) && Enabled(fs, call)
    ensures Inv(After(fs, call, luck))
  {
    hide Almost, Create, Open, Reopen, Close, Delete;
    match call
    case DoCreate(name, size) => CreateKeeps(fs, name, size, luck);
    case DoOpen(name) => OpenFileKeeps(fs, name, luck);
    case DoReopen(h) => ReopenKeeps(fs, h, luck);
    case DoClose(h) => FileCloseKeeps(fs, h);
    case DoDeny(h, deny) =>
      if fs.files[h].value.deny != deny {
        DenyKeeps(fs, h, fs.files[h].value.sector, deny);
      }
    case DoDelete(name) => DeleteKeeps(fs, name, luck);
  }

  /** A call that fits the state, and what it makes of it; nothing is said of a state that is
      not in order, which `RunKeeps` shows never comes about. */
  ghost predicate Goes(fs: Fs, call: Call, luck: Luck, r: Fs) {
    Inv(fs) ==> Enabled(fs, call) && r == After(fs, call, luck)
  }

  ghost predicate IsRun(states: seq<Fs>, calls: seq<Call>, lucks: seq<Luck>) {
    && |states| == |calls| + 1 == |lucks| + 1
    && forall i :: 0 <= i < |calls| ==> Goes(states[i], calls[i], lucks[i], states[i + 1])
  }

  /** In every state of every run: open inodes are distinct, their counts are those of the
      open files, and every sector in use belongs to one group with one owner. */
  lemma {:induction false} RunKeeps(states: seq<Fs>, calls: seq<Call>, lucks: seq<Luck>, i: nat)
    requires IsRun(states, calls, lucks) && Inv(states[0]) && i < |states|
    ensures Inv(states[i])
    decreases i
  {
    hide Almost;
    if i > 0 {
      RunKeeps(states, calls, lucks, i - 1);
      assert Goes(states[i - 1], calls[i - 1], lucks[i - 1], states[i]);
      CallKeeps(states[i - 1], calls[i - 1], lucks[i - 1]);
    }
  }

  // ---------- after formatting ----------

  const ROOT_ENTRIES := 16

  function FreeMapSize(n: nat): nat { (n + 31) / 32 * 4 }

  /** A formatted device of n sectors, with the free map file open. */
  function Boot(n: nat): Fs
    requires SectorsFor(FreeMapSize(n)) + 3 <= n <= 0x1_0000_0000
  {
    var m := SectorsFor(FreeMapSize(n));
    var map0, root := Extent(2, FreeMapSize(n)), Extent(2 + m, ROOT_ENTRIES * SLOT_SIZE);
    Fs(seq(n, i => i < m + 3),
       seq(ROOT_ENTRIES * SLOT_SIZE, _ => 0),
       map[FREE_MAP_SECTOR := map0, ROOT_DIR_SECTOR := root],
       [OpenInode(FREE_MAP_SECTOR, 1, 0, false, map0)],
       [Some(File(FREE_MAP_SECTOR, false))],
       map[0 := Group(1, AnInode), 1 := Group(1, AnInode), 2 := Group(m, DataOf(0)), 2 + m := Group(1, DataOf(1))])
  }

  lemma MapSectors(n: nat)
    requires SectorsFor(FreeMapSize(n)) + 3 <= n
    ensures SectorsFor(FreeMapSize(n)) >= 1
  {
    assert FreeMapSize(n) >= 4;
  }

  lemma BootTiled(n: nat)
    requires SectorsFor(FreeMapSize(n)) + 3 <= n <= 0x1_0000_0000
    ensures Tiled(Boot(n).used, Lens(Boot(n).groups)) && Owned(Boot(n).groups, Boot(n).inodes)
  {
    hide SectorsFor, FreeMapSize, Tiled, Owned;
    var fs, m := Boot(n), SectorsFor(FreeMapSize(n));
    MapSectors(n);
    BootOwned(fs.groups, fs.inodes, m, FreeMapSize(n));
    BootTiles(n, m, fs.used);
    assert Lens(fs.groups) == map[0 := 1, 1 := 1, 2 := m, 2 + m := 1];
  }

  lemma BootOwned(groups: map<nat, Group>, inodes: map<nat, Extent>, m: nat, size: nat)
    requires m >= 1 && m == SectorsFor(size)
    requires inodes == map[FREE_MAP_SECTOR := Extent(2, size), ROOT_DIR_SECTOR := Extent(2 + m, ROOT_ENTRIES * SLOT_SIZE)]
    requires groups == map[0 := Group(1, AnInode), 1 := Group(1, AnInode), 2 := Group(m, DataOf(0)), 2 + m := Group(1, DataOf(1))]
    ensures Owned(groups, inodes)
  {
    hide SectorsFor;
    OneSector(ROOT_ENTRIES * SLOT_SIZE);
  }

  lemma BootTiles(n: nat, m: nat, used: seq<bool>)
    requires m >= 1 && m + 3 <= n && |used| == n && forall i :: 0 <= i < n ==> used[i] == (i < m + 3)
    ensures Tiled(used, map[0 := 1, 1 := 1, 2 := m, 2 + m := 1])
  {
    var lens := map[0 := 1, 1 := 1, 2 := m, 2 + m := 1];
    forall i | 0 <= i < n
      ensures used[i] <==> exists p :: Covers(lens, p, i)
    {
      if i < m + 3 {
        assert Covers(lens, if i < 2 then i else if i < 2 + m then 2 else 2 + m, i);
      }
    }
  }

  lemma BootDir(n: nat)
    requires SectorsFor(FreeMapSize(n)) + 3 <= n <= 0x1_0000_0000
    ensures Dir(Boot(n).dir) && Bindings(Boot(n).dir) == map[]
  {
    hide NameField, SectorField, SectorsFor, FreeMapSize;
  }

  lemma BootKeeps(n: nat)
    requires SectorsFor(FreeMapSize(n)) + 3 <= n <= 0x1_0000_0000
    ensures Inv(Boot(n))
  {
    hide Tiled, Owned, Dir, Bindings, SectorsFor, FreeMapSize;
    BootTiled(n);
    BootDir(n);
    var fs := Boot(n);
    assert Openers(fs.files[..0], 0, false) == 0 && Openers(fs.files[..0], 0, true) == 0;
    assert EntryOk(fs.open[0], fs.files, fs.inodes, None);
    assert IsOpen(fs.open, 0) by {
      assert fs.open[0].sector == 0;
    }
  }

  /** do_format and free_map_open: the two inodes are marked, the data of the free map and of
      the root directory is allocated; None is a panic. */
  function Formatted(n: nat): Option<Fs> {
    var size, rootSize := FreeMapSize(n), ROOT_ENTRIES * SLOT_SIZE;
    var used0 := seq(n, i => i == FREE_MAP_SECTOR || i == ROOT_DIR_SECTOR);
    if n < 2 then None
    else
      match Scan(used0, 0, SectorsFor(size))
      case None => None
      case Some(a) =>
        var used1 := SetRange(used0, a, SectorsFor(size), true);
        match Scan(used1, 0, SectorsFor(rootSize))
        case None => None
        case Some(b) =>
          Some(Fs(SetRange(used1, b, SectorsFor(rootSize), true),
                  seq(rootSize, _ => 0),
                  map[FREE_MAP_SECTOR := Extent(a, size), ROOT_DIR_SECTOR := Extent(b, rootSize)],
                  [OpenInode(FREE_MAP_SECTOR, 1, 0, false, Extent(a, size))],
                  [Some(File(FREE_MAP_SECTOR, false))],
                  map[FREE_MAP_SECTOR := Group(1, AnInode), ROOT_DIR_SECTOR := Group(1, AnInode),
                      a := Group(SectorsFor(size), DataOf(FREE_MAP_SECTOR)),
                      b := Group(SectorsFor(rootSize), DataOf(ROOT_DIR_SECTOR))]))
  }

  /** Formatting succeeds if and only if the free map and one sector each for the other three
      fit, and leaves the state from which runs begin. */
  lemma FormatBoots(n: nat)
    requires n <= 0x1_0000_0000
    ensures Formatted(n) == if SectorsFor(FreeMapSize(n)) + 3 <= n then Some(Boot(n)) else None
  {
    var m := SectorsFor(FreeMapSize(n));
    assert n >= 1 ==> m >= 1;
    assert SectorsFor(ROOT_ENTRIES * SLOT_SIZE) == 1;
    if n >= 2 {
      var used0 := seq(n, i => i == FREE_MAP_SECTOR || i == ROOT_DIR_SECTOR);
      hide SectorsFor, FreeMapSize;
      FirstRun(used0, 2, m);
      if 2 + m <= n {
        var used1 := SetRange(used0, 2, m, true);
        FirstRun(used1, 2 + m, 1);
        if m + 3 <= n {
          assert SetRange(used1, 2 + m, 1, true) == Boot(n).used;
        }
      }
    }
  }

  lemma FirstRun(bits: seq<bool>, x: nat, cnt: nat)
    requires cnt >= 1 && x <= |bits| && forall i :: 0 <= i < x ==> bits[i]
    requires x + cnt <= |bits| ==> AllAre(bits, x, cnt, false)
    ensures Scan(bits, 0, cnt) == if x + cnt <= |bits| then Some(x) else None
  {
    forall i | 0 <= i < x
      ensures !AllAre(bits, i, cnt, false)
    {
      assert bits[i];
    }
  }

  lemma RunFromBoot(n: nat, states: seq<Fs>, calls: seq<Call>, lucks: seq<Luck>, i: nat)
    requires SectorsFor(FreeMapSize(n)) + 3 <= n <= 0x1_0000_0000
    requires IsRun(states, calls, lucks) && states[0] == Boot(n) && i < |states|
    ensures Inv(states[i])
  {
    BootKeeps(n);
    RunKeeps(states, calls, lucks, i);
  }

  const ALL_LUCK := Luck(true, true, true, true, true)

  /** On a freshly formatted disk with two more sectors, creating a file of one byte without a
      name fails and loses a sector. */
  lemma LosesOnce(n: nat)
    requires SectorsFor(FreeMapSize(n)) + 5 <= n <= 0x1_0000_0000
    ensures Inv(Boot(n))
    ensures var (r, ok) := Create(Boot(n), [], 1, ALL_LUCK);
      !ok && r.inodes == Boot(n).inodes && r.groups != Boot(n).groups
  {
    hide Inv, Dir, Bindings, Create, SectorsFor, FreeMapSize;
    var fs, m := Boot(n), SectorsFor(FreeMapSize(n));
    BootKeeps(n);
    CreateLosesSpace(fs, [], 1, ALL_LUCK);
    FirstRun(fs.used, m + 3, 1);
    FirstRun(SetRange(fs.used, m + 3, 1, true), m + 4, 1);
    OneSector(1);
  }

  lemma OneSector(length: nat)
    requires 1 <= length <= SECTOR_SIZE
    ensures SectorsFor(length) == 1
  {
  }

  // ---------- whose sectors are whose ----------

  lemma GroupsApart(fs: Fs, p: nat, q: nat)
    requires Inv(fs) && p in fs.groups && q in fs.groups && p != q
    ensures p + fs.groups[p].len <= q || q + fs.groups[q].len <= p
    ensures p + fs.groups[p].len <= |fs.used|
  {
    hide Owned, Linked, Table, Alive;
    assert p in Lens(fs.groups) && q in Lens(fs.groups);
  }

  /** The data of two files never overlaps, and never overlaps an inode. */
  lemma FilesApart(fs: Fs, s: nat, t: nat)
    requires Inv(fs) && s in fs.inodes && t in fs.inodes
    ensures var e, f := fs.inodes[s], fs.inodes[t];
      && e.start + SectorsFor(e.length) <= |fs.used| && s < |fs.used|
      && (s != t ==> e.start + SectorsFor(e.length) <= f.start || f.start + SectorsFor(f.length) <= e.start
                     || SectorsFor(e.length) == 0 || SectorsFor(f.length) == 0)
      && !(e.start <= t < e.start + SectorsFor(e.length))
  {
    ExtentGroup(fs, s);
    ExtentGroup(fs, t);
    var e, f := fs.inodes[s], fs.inodes[t];
    hide Inv, SectorsFor;
    if SectorsFor(e.length) > 0 {
      GroupsApart(fs, e.start, t);
      if SectorsFor(f.length) > 0 && s != t {
        GroupsApart(fs, e.start, f.start);
      }
    } else {
      GroupsApart(fs, s, if s == 0 then 1 else 0);
    }
    GroupsApart(fs, s, if s == 0 then 1 else 0);
  }

  lemma ExtentGroup(fs: Fs, s: nat)
    requires Inv(fs) && s in fs.inodes
    ensures s in fs.groups && fs.groups[s] == Group(1, AnInode)
    ensures 0 in fs.groups && 1 in fs.groups
    ensures var e := fs.inodes[s];
      if SectorsFor(e.length) > 0 then e.start in fs.groups && fs.groups[e.start] == Group(SectorsFor(e.length), DataOf(s))
      else e.start == 0
  {
    hide Tiled, Table, Linked, SectorsFor;
  }

  /** A write to one file leaves every other file and every inode as it is. */
  lemma WriteTouchesOneFile(fs: Fs, disk: seq<Sector>, disk': seq<Sector>, s: nat, t: nat, offset: nat, data: seq<Byte>)
    requires Inv(fs) && |disk| == |fs.used| && s in fs.inodes && t in fs.inodes
    requires Writes(disk, disk', fs.inodes[s], offset, data) && offset + |data| <= fs.inodes[s].length
    ensures OnDisk(disk, fs.inodes[t]) && |disk'| == |disk| && t < |disk|
    ensures disk'[t] == disk[t]
    ensures t != s ==> Flat(disk', fs.inodes[t]) == Flat(disk, fs.inodes[t])
  {
    hide Inv;
    FilesApart(fs, s, t);
    FilesApart(fs, t, s);
    var e, f := fs.inodes[s], fs.inodes[t];
    InodeUntouched(disk, disk', e, offset, data, t);
    if t != s {
      if SectorsFor(e.length) == 0 || SectorsFor(f.length) == 0 {
        OneIsEmpty(disk, disk', e, offset, data, f);
      } else {
        WritesLeave(disk, disk', e, offset, data, f);
      }
    }
  }

  lemma OneIsEmpty(disk: seq<Sector>, disk': seq<Sector>, e: Extent, offset: nat, data: seq<Byte>, f: Extent)
    requires Writes(disk, disk', e, offset, data) && offset + |data| <= e.length
    requires SectorsFor(e.length) == 0 || SectorsFor(f.length) == 0
    requires OnDisk(disk, f)
    ensures Flat(disk', f) == Flat(disk, f)
  {
    if SectorsFor(f.length) > 0 {
      assert data == [];
      forall i | 0 <= i < f.length
        ensures ByteAt(disk', f, i) == ByteAt(disk, f, i)
      {
        InExtent(f, i);
        assert !Hit(e, offset, 0, SectorOf(f, i), SectorOfs(i));
      }
    }
  }

  lemma InodeUntouched(disk: seq<Sector>, disk': seq<Sector>, e: Extent, offset: nat, data: seq<Byte>, x: nat)
    requires Writes(disk, disk', e, offset, data) && offset + |data| <= e.length
    requires x < |disk| && !(e.start <= x < e.start + SectorsFor(e.length))
    ensures disk'[x] == disk[x]
  {
    forall k | 0 <= k < SECTOR_SIZE
      ensures disk'[x][k] == disk[x][k]
    {
      assert !Hit(e, offset, |data|, x, k);
    }
  }

  /** Sector x belongs to inode s. */
  ghost predicate Belongs(fs: Fs, s: nat, x: nat) {
    s in fs.inodes && (x == s || fs.inodes[s].start <= x < fs.inodes[s].start + SectorsFor(fs.inodes[s].length))
  }

  lemma GroupBelongs(fs: Fs, p: nat, x: nat) returns (s: nat)
    requires Owned(fs.groups, fs.inodes) && p in fs.groups && fs.groups[p].use != Leaked
    requires p <= x < p + fs.groups[p].len
    ensures Belongs(fs, s, x)
  {
    hide SectorsFor;
    s := if fs.groups[p].use.AnInode? then p else fs.groups[p].use.sector;
  }

  lemma BelongsCovered(fs: Fs, s: nat, x: nat) returns (p: nat)
    requires Owned(fs.groups, fs.inodes) && Belongs(fs, s, x)
    ensures Covers(Lens(fs.groups), p, x)
  {
    hide SectorsFor;
    p := if x == s then s else fs.inodes[s].start;
  }

  /** A sector is marked used exactly when it belongs to an inode that exists, or to data
      that was lost. */
  lemma UsedMeansOwned(fs: Fs, x: nat)
    requires Inv(fs) && x < |fs.used|
    ensures fs.used[x] <==>
      (exists s: nat :: Belongs(fs, s, x)) ||
      (exists g :: g in fs.groups && fs.groups[g].use == Leaked && g <= x < g + fs.groups[g].len)
  {
    hide SectorsFor, Table, Linked, Alive, Owned, Belongs;
    var lens := Lens(fs.groups);
    if fs.used[x] {
      var p :| Covers(lens, p, x);
      if fs.groups[p].use != Leaked {
        var s := GroupBelongs(fs, p, x);
      }
    }
    if s: nat :| Belongs(fs, s, x) {
      var p := BelongsCovered(fs, s, x);
    }
    if g :| g in fs.groups && fs.groups[g].use == Leaked && g <= x < g + fs.groups[g].len {
      assert Covers(lens, g, x);
    }
  }

  /** When every name is deleted and every file but that of the free map closed, only the two
      inodes of the system are left. */
  lemma AllDeleted(fs: Fs)
    requires Inv(fs) && Bindings(fs.dir) == map[]
    requires forall h :: 0 <= h < |fs.files| && fs.files[h].Some? ==> fs.files[h].value.sector <= ROOT_DIR_SECTOR
    ensures fs.inodes.Keys == {FREE_MAP_SECTOR, ROOT_DIR_SECTOR}
  {
    hide Tiled, Owned, Linked, Bindings;
    forall s | s in fs.inodes
      ensures s <= ROOT_DIR_SECTOR
    {
      if IsRemoved(fs.open, s) {
        var i :| 0 <= i < |fs.open| && fs.open[i].sector == s && fs.open[i].removed;
        assert EntryOk(fs.open[i], fs.files, fs.inodes, None);
        if s > ROOT_DIR_SECTOR {
          NoOpeners(fs.files, s, false);
        }
      }
    }
  }
}
