/** The file system as the kernel runs it, with its tables updated in place.  Every method is
    proved to do what the function of FileSysRuns or FileSysState says. */
module FileSystem {
  import opened Common
  import opened Bitmap
  import opened Directory
  import opened Inode
  import opened FileSysState
  import opened FileSysSteps
  import opened FileSysRuns

  class FileSys {
    var used: seq<bool>
    var dir: seq<Byte>
    var inodes: map<nat, Extent>
    var open: seq<OpenInode>
    var files: seq<Option<File>>
    ghost var groups: map<nat, Group>

    ghost function St(): Fs
      reads this
    {
      Fs(used, dir, inodes, open, files, groups)
    }

    // ---------- free-map.c ----------

    /** free_map_allocate, which takes the bits back when the map cannot be written. */
    method AllocateMap(cnt: nat, written: bool) returns (sector: Option<nat>)
      modifies this`used
      ensures sector == if written then Scan(old(used), 0, cnt) else None
      ensures used == if sector.Some? then SetRange(old(used), sector.value, cnt, true) else old(used)
    {
      sector := FindClear(used, cnt);
      if sector.Some? {
        used := SetRange(used, sector.value, cnt, true);
        if !written {
          used := SetRange(used, sector.value, cnt, false);
          assert used == old(used);
          sector := None;
        }
      }
    }

    method Release(sector: nat, cnt: nat)
      requires AllAre(used, sector, cnt, true)
      modifies this`used
      ensures used == ReleaseMap(old(used), sector, cnt)
    {
      used := SetRange(used, sector, cnt, false);
    }

    // ---------- inode.c ----------

    /** The search through the list of open inodes. */
    method FindInode(s: nat) returns (i: nat)
      ensures i == FindOpen(open, s, 0)
    {
      i := 0;
      while i < |open| && open[i].sector != s
        invariant 0 <= i <= |open| && FindOpen(open, s, i) == FindOpen(open, s, 0)
      {
        i := i + 1;
      }
    }

    method InodeOpen(s: nat, memory: bool) returns (ok: bool)
      requires s in inodes
      modifies this`open
      ensures (St(), ok) == OpenNode(old(St()), s, memory)
    {
      var i := FindInode(s);
      if i < |open| {
        open := open[i := open[i].(openCnt := open[i].openCnt + 1)];
        return true;
      }
      if !memory {
        return false;
      }
      open := [OpenInode(s, 1, 0, false, inodes[s])] + open;
      return true;
    }

    method InodeClose(s: nat)
      requires CanClose(St(), s)
      modifies this
      ensures St() == CloseNode(old(St()), s)
    {
      var i := FindInode(s);
      var o := open[i];
      open := open[i := o.(openCnt := o.openCnt - 1)];
      if open[i].openCnt == 0 {
        open := open[..i] + open[i + 1..];
        if o.removed {
          Release(s, 1);
          Release(o.extent.start, SectorsFor(o.extent.length));
          inodes := inodes - {s};
          groups := Without(groups, s, o.extent);
        }
      }
    }

    method InodeRemove(s: nat)
      modifies this`open
      ensures St() == MarkRemoved(old(St()), s)
    {
      var i := FindInode(s);
      if i < |open| {
        open := open[i := open[i].(removed := true)];
      }
    }

    // ---------- file.c ----------

    /** file_open, of an inode that is open. */
    method FileOpen(s: nat, luck: Luck) returns (file: Option<nat>)
      requires Almost(St(), Some(s))
      modifies this
      ensures (St(), file) == TakeFile(old(St()), s, luck)
    {
      if luck.file {
        files := files + [Some(File(s, false))];
        return Some(|files| - 1);
      }
      CloseKeeps(St(), s);
      InodeClose(s);
      return None;
    }

    method FileReopen(h: nat, luck: Luck) returns (file: Option<nat>)
      requires Inv(St()) && h < |files| && files[h].Some?
      modifies this
      ensures (St(), file) == Reopen(old(St()), h, luck)
    {
      var s := files[h].value.sector;
      FileIsOpen(St(), h);
      OpenKeeps(St(), s, false);
      hide Almost;
      var ok := InodeOpen(s, false);
      file := FileOpen(s, luck);
    }

    /** inode_deny_write and inode_allow_write, with what they assert. */
    method AdjustCount(s: nat, d: int)
      requires var i := FindOpen(open, s, 0);
        i < |open| && (d == 1 || d == -1) && 0 <= open[i].denyCnt + d <= open[i].openCnt
      modifies this`open
      ensures St() == AdjustDeny(old(St()), s, d)
    {
      var i := FindInode(s);
      if d < 0 {
        assert open[i].denyCnt > 0;
      }
      open := open[i := open[i].(denyCnt := open[i].denyCnt + d)];
      assert open[i].denyCnt <= open[i].openCnt;
    }

    /** file_deny_write and file_allow_write. */
    method FileSetDeny(h: nat, deny: bool)
      requires Inv(St()) && h < |files| && files[h].Some?
      modifies this
      ensures St() == SetDeny(old(St()), h, deny)
    {
      var f := files[h].value;
      if f.deny != deny {
        DenyBounds(St(), h, f.sector, deny);
        hide Inv, FindOpen, AdjustDeny;
        files := files[h := Some(f.(deny := deny))];
        AdjustCount(f.sector, if deny then 1 else -1);
      }
    }

    method FileClose(h: nat)
      requires Inv(St()) && h < |files| && files[h].Some?
      modifies this
      ensures St() == Close(old(St()), h)
    {
      hide Almost, SetDeny;
      var s := files[h].value.sector;
      AllowKeeps(St(), h);
      FileSetDeny(h, false);
      DropFileKeeps(St(), h, s);
      CloseKeeps(St().(files := files[h := None]), s);
      files := files[h := None];
      InodeClose(s);
    }

    // ---------- filesys.c ----------

    method FilesysOpen(name: Name, luck: Luck) returns (file: Option<nat>)
      requires Inv(St())
      modifies this
      ensures (St(), file) == Open(old(St()), name, luck)
    {
      hide Almost, Bindings;
      var slot := Lookup(dir, name, 0);
      if !luck.root || slot.None? {
        return None;
      }
      LinkExists(St(), name);
      var s := SectorField(SlotAt(dir, slot.value));
      OpenKeeps(St(), s, luck.memory);
      var ok := InodeOpen(s, luck.memory);
      if !ok {
        return None;
      }
      file := FileOpen(s, luck);
    }

    method FilesysRemove(name: Name, luck: Luck) returns (success: bool)
      requires Inv(St())
      modifies this
      ensures (St(), success) == Delete(old(St()), name, luck)
    {
      hide Inv, Almost, Bindings, Delete, OpenNode, Remove, Lookup, CanClose, CloseNode, MarkRemoved;
      var slot := Lookup(dir, name, 0);
      if !luck.root || slot.None? {
        DeletesNothing(St(), name, luck);
        return false;
      }
      DeleteIs(St(), name, luck);
      var s := SectorField(SlotAt(dir, slot.value));
      var ok := InodeOpen(s, luck.memory);
      if !ok {
        return false;
      }
      dir := Remove(dir, name).0;
      InodeRemove(s);
      InodeClose(s);
      return true;
    }

    /** filesys_create with inode_create: whatever fails, the inode sector is given back. */
    method FilesysCreate(name: Name, size: nat, luck: Luck) returns (success: bool)
      requires Inv(St()) && NoNul(name)
      modifies this
      ensures (St(), success) == Create(old(St()), name, size, luck)
    {
      if !luck.root {
        return false;
      }
      ghost var fs := St();
      var sector := AllocateMap(1, luck.map1);
      if sector.None? {
        return false;
      }
      var s := sector.value;
      if luck.memory {
        var start := AllocateMap(SectorsFor(size), luck.map2);
        if start.Some? {
          success := EnterName(fs, name, s, Extent(start.value, size));
          return;
        }
      }
      TakenIsSet(fs.used, s);
      Release(s, 1);
      assert used == fs.used;
      return false;
    }

    /** dir_add, after both allocations; the inode sector is given back when it fails. */
    method EnterName(ghost fs: Fs, name: Name, s: nat, e: Extent) returns (success: bool)
      requires Inv(fs) && NoNul(name) && s < 0x1_0000_0000
      requires AllAre(fs.used, s, 1, false) && AllAre(SetRange(fs.used, s, 1, true), e.start, SectorsFor(e.length), false)
      requires SectorsFor(e.length) == 0 ==> e.start == 0
      requires St() == fs.(used := SetRange(SetRange(fs.used, s, 1, true), e.start, SectorsFor(e.length), true))
      modifies this
      ensures s in NewNode(fs, s, e).inodes && AllAre(NewNode(fs, s, e).used, s, 1, true)
      ensures var (dir', ok) := Add(fs.dir, name, s);
        success == ok && St() == if ok then NewNode(fs, s, e).(dir := dir') else DropInode(NewNode(fs, s, e), s)
    {
      hide Inv, Add, With, LeakedOf, AllAre;
      LeakKeeps(fs, s, e);
      inodes := inodes[s := e];
      groups := With(groups, s, e);
      assert St() == NewNode(fs, s, e);
      var (dir', ok) := Add(dir, name, s);
      if !ok {
        Release(s, 1);
        groups := LeakedOf(groups, s, e);
        inodes := inodes - {s};
        return false;
      }
      dir := dir';
      return true;
    }
  }

  lemma DenyBounds(fs: Fs, h: nat, s: nat, deny: bool)
    requires Inv(fs) && h < |fs.files| && fs.files[h] == Some(File(s, !deny))
    ensures var i := FindOpen(fs.open, s, 0); var d := if deny then 1 else -1;
      i < |fs.open| && 0 <= fs.open[i].denyCnt + d <= fs.open[i].openCnt
  {
    DenyKeeps(fs, h, s, deny);
    hide Almost;
  }

  lemma DeletesNothing(fs: Fs, name: Name, luck: Luck)
    requires Inv(fs) && (!luck.root || Lookup(fs.dir, name, 0).None?)
    ensures Delete(fs, name, luck) == (fs, false)
  {
    hide Almost;
  }

  /** filesys_remove of a name that is bound, step by step. */
  lemma DeleteIs(fs: Fs, name: Name, luck: Luck)
    requires Inv(fs) && luck.root && Lookup(fs.dir, name, 0).Some?
    ensures var s := SectorField(SlotAt(fs.dir, Lookup(fs.dir, name, 0).value));
      && s in fs.inodes
      && var (r, ok) := OpenNode(fs, s, luck.memory);
         var m := MarkRemoved(r.(dir := Remove(fs.dir, name).0), s);
         if ok then CanClose(m, s) && Delete(fs, name, luck) == (CloseNode(m, s), true)
         else r == fs && Delete(fs, name, luck) == (fs, false)
  {
    hide Almost, Bindings, Dir, OpenNode, MarkRemoved, CloseNode, CanClose, Lookup, Remove;
    LinkExists(fs, name);
    RemoveDeletes(fs.dir, name);
    var s := SectorField(SlotAt(fs.dir, Lookup(fs.dir, name, 0).value));
    OpenKeeps(fs, s, luck.memory);
    var (r, ok) := OpenNode(fs, s, luck.memory);
    if ok {
      UnlinkKeeps(r, s, name, Remove(fs.dir, name).0);
      CloseKeeps(MarkRemoved(r.(dir := Remove(fs.dir, name).0), s), s);
    }
  }

  lemma TakenIsSet(bits: seq<bool>, s: nat)
    requires AllAre(bits, s, 1, false)
    ensures AllAre(SetRange(bits, s, 1, true), s, 1, true)
    ensures SetRange(SetRange(bits, s, 1, true), s, 1, false) == bits
  {
  }
}
