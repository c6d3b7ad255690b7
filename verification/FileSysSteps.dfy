/** What opening, closing, creating and removing files keep. */
module FileSysSteps {
  import opened Common
  import opened Bitmap
  import opened Directory
  import opened Inode
  import opened FileSysState

  // ---------- the table of open inodes ----------

  lemma Found(open: seq<OpenInode>, s: nat)
    ensures IsOpen(open, s) <==> FindOpen(open, s, 0) < |open|
  {
    if FindOpen(open, s, 0) < |open| {
      assert open[FindOpen(open, s, 0)].sector == s;
    }
  }

  /** Entry i changes, but for its sector. */
  lemma SameSectors(open: seq<OpenInode>, i: nat, o: OpenInode, s: nat)
    requires i < |open| && o.sector == open[i].sector
    ensures IsOpen(open[i := o], s) <==> IsOpen(open, s)
  {
    var open' := open[i := o];
    assert forall j :: 0 <= j < |open| ==> open'[j].sector == open[j].sector;
    if IsOpen(open, s) {
      var j :| 0 <= j < |open| && open[j].sector == s;
      assert open'[j].sector == s;
    }
  }

  lemma SameRemoved(open: seq<OpenInode>, i: nat, o: OpenInode, s: nat)
    requires i < |open| && o.sector == open[i].sector && o.removed == open[i].removed
    ensures IsRemoved(open[i := o], s) <==> IsRemoved(open, s)
  {
    var open' := open[i := o];
    assert forall j :: 0 <= j < |open| ==> open'[j].sector == open[j].sector && open'[j].removed == open[j].removed;
    if IsRemoved(open, s) {
      var j :| 0 <= j < |open| && open[j].sector == s && open[j].removed;
      assert open'[j].sector == s && open'[j].removed;
    }
  }

  lemma AliveFor(links: map<Name, nat>, inodes: map<nat, Extent>, open: seq<OpenInode>, open': seq<OpenInode>)
    requires Alive(links, inodes, open)
    requires forall s :: s >= 0 ==> (IsRemoved(open', s) <==> IsRemoved(open, s))
    ensures Alive(links, inodes, open')
  {
  }

  /** The count of inode s goes up. */
  lemma CountUp(open: seq<OpenInode>, files: seq<Option<File>>, inodes: map<nat, Extent>, s: nat, i: nat)
    requires Table(open, files, inodes, None) && i < |open| && open[i].sector == s
    ensures Table(open[i := open[i].(openCnt := open[i].openCnt + 1)], files, inodes, Some(s))
  {
    var o := open[i].(openCnt := open[i].openCnt + 1);
    var open' := open[i := o];
    forall j | 0 <= j < |open'|
      ensures EntryOk(open'[j], files, inodes, Some(s))
    {
      assert EntryOk(open[j], files, inodes, None);
    }
    forall x: nat ensures IsOpen(open', x) <==> IsOpen(open, x) {
      SameSectors(open, i, o, x);
    }
    assert open'[i].sector == s;
  }

  lemma NewEntry(open: seq<OpenInode>, files: seq<Option<File>>, inodes: map<nat, Extent>, s: nat)
    requires Table(open, files, inodes, None) && s in inodes && !IsOpen(open, s)
    ensures Table([OpenInode(s, 1, 0, false, inodes[s])] + open, files, inodes, Some(s))
  {
    var open' := [OpenInode(s, 1, 0, false, inodes[s])] + open;
    NotOpenNoOpeners(open, files, inodes, s, false);
    NotOpenNoOpeners(open, files, inodes, s, true);
    forall j | 0 <= j < |open'|
      ensures EntryOk(open'[j], files, inodes, Some(s))
    {
      if j > 0 {
        assert EntryOk(open[j - 1], files, inodes, None);
        assert open[j - 1].sector != s;
      }
    }
    assert open'[0].sector == s;
    forall x: nat | IsOpen(open, x) ensures IsOpen(open', x) {
      var j :| 0 <= j < |open| && open[j].sector == x;
      assert open'[j + 1].sector == x;
    }
  }

  lemma NotOpenNoOpeners(open: seq<OpenInode>, files: seq<Option<File>>, inodes: map<nat, Extent>, s: nat, denying: bool)
    requires Table(open, files, inodes, None) && !IsOpen(open, s)
    ensures Openers(files, s, denying) == 0
  {
    NoOpeners(files, s, denying);
  }

  lemma {:induction false} NoOpeners(files: seq<Option<File>>, s: nat, denying: bool)
    requires forall h :: 0 <= h < |files| ==> !Opens(files[h], s, denying)
    ensures Openers(files, s, denying) == 0
  {
    if files != [] {
      NoOpeners(files[..|files| - 1], s, denying);
    }
  }

  /** inode_open: the inode is open once more, or nothing happened. */
  lemma OpenKeeps(fs: Fs, s: nat, memory: bool)
    requires Inv(fs) && s in fs.inodes
    ensures var (r, ok) := OpenNode(fs, s, memory);
      && (ok ==> Almost(r, Some(s))) && (!ok ==> r == fs)
      && r == fs.(open := r.open)
      && (IsOpen(fs.open, s) || memory ==> ok)
  {
    hide Tiled, Owned, LinksOk, Dir, Table, Alive, Bindings;
    var i := FindOpen(fs.open, s, 0);
    var (r, ok) := OpenNode(fs, s, memory);
    Found(fs.open, s);
    if i < |fs.open| {
      CountUp(fs.open, fs.files, fs.inodes, s, i);
      forall x: nat ensures IsRemoved(r.open, x) <==> IsRemoved(fs.open, x) {
        SameRemoved(fs.open, i, r.open[i], x);
      }
    } else if memory {
      NewEntry(fs.open, fs.files, fs.inodes, s);
      forall x: nat ensures IsRemoved(r.open, x) <==> IsRemoved(fs.open, x) {
        FrontNotRemoved(fs.open, r.open[0], x);
      }
    }
    AliveFor(Bindings(fs.dir), fs.inodes, fs.open, r.open);
  }

  lemma FrontNotRemoved(open: seq<OpenInode>, o: OpenInode, s: nat)
    requires !o.removed
    ensures IsRemoved([o] + open, s) <==> IsRemoved(open, s)
  {
    var open' := [o] + open;
    if IsRemoved(open, s) {
      var j :| 0 <= j < |open| && open[j].sector == s && open[j].removed;
      assert open'[j + 1] == open[j];
    }
    if IsRemoved(open', s) {
      var j :| 0 <= j < |open'| && open'[j].sector == s && open'[j].removed;
      assert open[j - 1] == open'[j];
    }
  }

  // ---------- open files ----------

  lemma FilesTable(open: seq<OpenInode>, files: seq<Option<File>>, files': seq<Option<File>>, inodes: map<nat, Extent>, temp: Option<nat>, temp': Option<nat>)
    requires Table(open, files, inodes, temp)
    requires forall s: nat :: Openers(files', s, true) == Openers(files, s, true)
    requires forall s: nat :: Openers(files', s, false) + One(temp' == Some(s)) == Openers(files, s, false) + One(temp == Some(s))
    requires forall h :: 0 <= h < |files'| && files'[h].Some? ==> IsOpen(open, files'[h].value.sector)
    requires temp'.Some? ==> IsOpen(open, temp'.value)
    ensures Table(open, files', inodes, temp')
  {
    forall i | 0 <= i < |open|
      ensures EntryOk(open[i], files', inodes, temp')
    {
      assert EntryOk(open[i], files, inodes, temp);
    }
  }

  /** file_open takes over the inode that is open. */
  lemma AddFileKeeps(fs: Fs, s: nat)
    requires Almost(fs, Some(s))
    ensures Inv(fs.(files := fs.files + [Some(File(s, false))]))
  {
    var files' := fs.files + [Some(File(s, false))];
    forall x: nat
      ensures Openers(files', x, true) == Openers(fs.files, x, true)
      ensures Openers(files', x, false) == Openers(fs.files, x, false) + One(Some(s) == Some(x))
    {
      OpenersAppend(fs.files, Some(File(s, false)), x, true);
      OpenersAppend(fs.files, Some(File(s, false)), x, false);
    }
    FilesTable(fs.open, fs.files, files', fs.inodes, Some(s), None);
  }

  /** A file that denies no writes goes, and leaves its inode open. */
  lemma DropFileKeeps(fs: Fs, h: nat, s: nat)
    requires Inv(fs) && h < |fs.files| && fs.files[h] == Some(File(s, false))
    ensures Almost(fs.(files := fs.files[h := None]), Some(s))
  {
    var files' := fs.files[h := None];
    forall x: nat
      ensures Openers(files', x, true) == Openers(fs.files, x, true)
      ensures Openers(files', x, false) + One(Some(s) == Some(x)) == Openers(fs.files, x, false)
    {
      OpenersUpdate(fs.files, h, None, x, true);
      OpenersUpdate(fs.files, h, None, x, false);
    }
    FilesTable(fs.open, fs.files, files', fs.inodes, None, Some(s));
  }

  /** inode_deny_write and inode_allow_write for one open file: the counts follow, within
      bounds. */
  lemma DenyKeeps(fs: Fs, h: nat, s: nat, deny: bool)
    requires Inv(fs) && h < |fs.files| && fs.files[h] == Some(File(s, !deny))
    ensures var d := if deny then 1 else -1;
      var r := AdjustDeny(fs.(files := fs.files[h := Some(File(s, deny))]), s, d);
      var i := FindOpen(fs.open, s, 0);
      && Inv(r) && i < |fs.open| && r.open[i].denyCnt == fs.open[i].denyCnt + d <= r.open[i].openCnt
  {
    hide Tiled, Owned, LinksOk, Dir, Bindings, Openers, Table, Alive;
    var files' := fs.files[h := Some(File(s, deny))];
    var i := FileEntry(fs.open, fs.files, fs.inodes, h);
    DenyCounts(fs.files, h, s, deny);
    var o := fs.open[i].(denyCnt := fs.open[i].denyCnt + (if deny then 1 else -1));
    DenyTable(fs.open, fs.files, files', fs.inodes, i, o);
    AdjustAlive(Bindings(fs.dir), fs.inodes, fs.open, i, o);
  }

  /** The entry of the table for an open file. */
  lemma FileEntry(open: seq<OpenInode>, files: seq<Option<File>>, inodes: map<nat, Extent>, h: nat) returns (i: nat)
    requires Table(open, files, inodes, None) && h < |files| && files[h].Some?
    ensures i == FindOpen(open, files[h].value.sector, 0) < |open|
    ensures open[i].openCnt == Openers(files, files[h].value.sector, false)
    ensures open[i].denyCnt == Openers(files, files[h].value.sector, true)
  {
    i := FindOpen(open, files[h].value.sector, 0);
    Found(open, files[h].value.sector);
    assert EntryOk(open[i], files, inodes, None);
  }

  lemma AdjustAlive(links: map<Name, nat>, inodes: map<nat, Extent>, open: seq<OpenInode>, i: nat, o: OpenInode)
    requires Alive(links, inodes, open) && i < |open| && o.sector == open[i].sector && o.removed == open[i].removed
    ensures Alive(links, inodes, open[i := o])
  {
    forall x: nat ensures IsRemoved(open[i := o], x) <==> IsRemoved(open, x) {
      SameRemoved(open, i, o, x);
    }
    AliveFor(links, inodes, open, open[i := o]);
  }

  lemma DenyCounts(files: seq<Option<File>>, h: nat, s: nat, deny: bool)
    requires h < |files| && files[h] == Some(File(s, !deny))
    ensures var files' := files[h := Some(File(s, deny))];
      && (forall x: nat :: Openers(files', x, true) == Openers(files, x, true) + (if x != s then 0 else if deny then 1 else -1))
      && (forall x: nat :: Openers(files', x, false) == Openers(files, x, false))
      && Openers(files', s, true) <= Openers(files, s, false)
  {
    var files' := files[h := Some(File(s, deny))];
    forall x: nat
      ensures Openers(files', x, true) == Openers(files, x, true) + (if x != s then 0 else if deny then 1 else -1)
      ensures Openers(files', x, false) == Openers(files, x, false)
    {
      OpenersUpdate(files, h, Some(File(s, deny)), x, true);
      OpenersUpdate(files, h, Some(File(s, deny)), x, false);
    }
    DenyingIsFewer(files', s);
  }

  lemma DenyTable(open: seq<OpenInode>, files: seq<Option<File>>, files': seq<Option<File>>, inodes: map<nat, Extent>, i: nat, o: OpenInode)
    requires Table(open, files, inodes, None) && i < |open|
    requires o == open[i].(denyCnt := Openers(files', open[i].sector, true))
    requires forall s: nat :: Openers(files', s, false) == Openers(files, s, false)
    requires forall s: nat :: s != open[i].sector ==> Openers(files', s, true) == Openers(files, s, true)
    requires |files'| == |files|
    requires forall h :: 0 <= h < |files| && files'[h].Some? ==> files[h].Some? && files[h].value.sector == files'[h].value.sector
    ensures Table(open[i := o], files', inodes, None)
  {
    hide Openers;
    var open' := open[i := o];
    forall j | 0 <= j < |open'|
      ensures EntryOk(open'[j], files', inodes, None)
    {
      assert EntryOk(open[j], files, inodes, None);
    }
    forall x: nat ensures IsOpen(open', x) <==> IsOpen(open, x) {
      SameSectors(open, i, o, x);
    }
  }

  // ---------- inode_close ----------

  lemma CountDown(open: seq<OpenInode>, files: seq<Option<File>>, inodes: map<nat, Extent>, s: nat, i: nat)
    requires Table(open, files, inodes, Some(s)) && i < |open| && open[i].sector == s && open[i].openCnt > 1
    ensures Table(open[i := open[i].(openCnt := open[i].openCnt - 1)], files, inodes, None)
  {
    var o := open[i].(openCnt := open[i].openCnt - 1);
    var open' := open[i := o];
    forall j | 0 <= j < |open'|
      ensures EntryOk(open'[j], files, inodes, None)
    {
      assert EntryOk(open[j], files, inodes, Some(s));
    }
    forall x: nat ensures IsOpen(open', x) <==> IsOpen(open, x) {
      SameSectors(open, i, o, x);
    }
  }

  function Dropped(open: seq<OpenInode>, i: nat): (r: seq<OpenInode>)
    requires i < |open|
    ensures |r| == |open| - 1
    ensures forall j :: 0 <= j < |r| ==> r[j] == open[if j < i then j else j + 1]
  {
    open[..i] + open[i + 1..]
  }

  lemma DroppedHas(open: seq<OpenInode>, i: nat, x: nat)
    requires i < |open| && open[i].sector != x
    ensures IsOpen(Dropped(open, i), x) <==> IsOpen(open, x)
    ensures IsRemoved(Dropped(open, i), x) <==> IsRemoved(open, x)
  {
    var r := Dropped(open, i);
    forall j | 0 <= j < |open| && j != i
      ensures open[j] == r[if j < i then j else j - 1]
    {
    }
  }

  lemma DroppedHasNot(open: seq<OpenInode>, files: seq<Option<File>>, inodes: map<nat, Extent>, i: nat, temp: Option<nat>)
    requires Table(open, files, inodes, temp) && i < |open|
    ensures !IsOpen(Dropped(open, i), open[i].sector) && !IsRemoved(Dropped(open, i), open[i].sector)
    ensures IsRemoved(open, open[i].sector) <==> open[i].removed
  {
    if open[i].removed {
      assert IsRemoved(open, open[i].sector);
    }
  }

  /** The last opener goes. */
  lemma LastOpener(open: seq<OpenInode>, files: seq<Option<File>>, inodes: map<nat, Extent>, s: nat, i: nat)
    requires Table(open, files, inodes, Some(s)) && i < |open| && open[i].sector == s && open[i].openCnt == 1
    ensures Table(Dropped(open, i), files, inodes, None)
    ensures forall h :: 0 <= h < |files| ==> !Opens(files[h], s, false)
  {
    var r := Dropped(open, i);
    assert EntryOk(open[i], files, inodes, Some(s));
    forall h | 0 <= h < |files|
      ensures !Opens(files[h], s, false)
    {
      if Opens(files[h], s, false) {
        OpenersPositive(files, h, s);
        assert false;
      }
    }
    forall j | 0 <= j < |r|
      ensures EntryOk(r[j], files, inodes, None)
    {
      assert EntryOk(open[if j < i then j else j + 1], files, inodes, Some(s));
    }
    forall h | 0 <= h < |files| && files[h].Some?
      ensures IsOpen(r, files[h].value.sector)
    {
      assert !Opens(files[h], s, false);
      DroppedHas(open, i, files[h].value.sector);
    }
  }

  lemma LensUpdate(groups: map<nat, Group>, g: nat, x: Group)
    ensures Lens(groups[g := x]) == Lens(groups)[g := x.len]
    ensures Lens(groups - {g}) == Lens(groups) - {g}
  {
  }

  lemma OwnedWithout(groups: map<nat, Group>, inodes: map<nat, Extent>, s: nat)
    requires Owned(groups, inodes) && s in inodes
    ensures Owned(Without(groups, s, inodes[s]), inodes - {s})
  {
    hide SectorsFor;
  }

  lemma TiledWithout(used: seq<bool>, groups: map<nat, Group>, s: nat, e: Extent)
    requires Tiled(used, Lens(groups)) && s in groups && groups[s].len == 1
    requires if SectorsFor(e.length) > 0 then e.start in groups && groups[e.start].len == SectorsFor(e.length) && e.start != s else e.start == 0
    ensures AllAre(used, s, 1, true)
    ensures AllAre(ReleaseMap(used, s, 1), e.start, SectorsFor(e.length), true)
    ensures Tiled(ReleaseMap(ReleaseMap(used, s, 1), e.start, SectorsFor(e.length)), Lens(Without(groups, s, e)))
  {
    var cnt := SectorsFor(e.length);
    assert Lens(groups)[s] == 1;
    ReleaseTiles(used, Lens(groups), s);
    LensUpdate(groups, s, Group(0, Leaked));
    var used1 := ReleaseMap(used, s, 1);
    if cnt > 0 {
      assert Lens(groups - {s})[e.start] == cnt;
      ReleaseTiles(used1, Lens(groups - {s}), e.start);
      LensUpdate(groups - {s}, e.start, Group(0, Leaked));
    } else {
      assert SetRange(used1, e.start, 0, false) == used1;
      assert groups - {s} - {} == groups - {s};
      assert AllAre(used1, e.start, 0, true);
    }
    hide Tiled, AllAre;
  }

  /** The sectors of an inode that exists are marked used, so they can be released; after
      that they are free, and no other group is touched. */
  lemma FreeKeeps(used: seq<bool>, groups: map<nat, Group>, inodes: map<nat, Extent>, s: nat, e: Extent)
    requires Tiled(used, Lens(groups)) && Owned(groups, inodes) && s in inodes && inodes[s] == e
    ensures AllAre(used, s, 1, true)
    ensures var used1 := ReleaseMap(used, s, 1);
      && AllAre(used1, e.start, SectorsFor(e.length), true)
      && Tiled(ReleaseMap(used1, e.start, SectorsFor(e.length)), Lens(Without(groups, s, e)))
      && Owned(Without(groups, s, e), inodes - {s})
  {
    OwnedWithout(groups, inodes, s);
    TiledWithout(used, groups, s, e);
  }

  /** Without inode s, which has no name, the links are as good as before. */
  lemma UnlinkedGoes(dir: seq<Byte>, inodes: map<nat, Extent>, s: nat)
    requires Linked(dir, inodes) && !HasName(Bindings(dir), s)
    ensures Linked(dir, inodes - {s})
  {
    hide Bindings;
  }

  lemma FreedTable(open: seq<OpenInode>, files: seq<Option<File>>, inodes: map<nat, Extent>, s: nat)
    requires Table(open, files, inodes, None) && !IsOpen(open, s)
    ensures Table(open, files, inodes - {s}, None)
  {
    forall j | 0 <= j < |open|
      ensures EntryOk(open[j], files, inodes - {s}, None)
    {
      assert EntryOk(open[j], files, inodes, None) && open[j].sector != s;
    }
  }

  lemma DroppedAlive(links: map<Name, nat>, inodes: map<nat, Extent>, open: seq<OpenInode>, files: seq<Option<File>>, i: nat)
    requires Alive(links, inodes, open) && i < |open| && Table(open, files, inodes, Some(open[i].sector))
    ensures !open[i].removed ==> Alive(links, inodes, Dropped(open, i))
    ensures open[i].removed ==>
      Alive(links, inodes - {open[i].sector}, Dropped(open, i)) && open[i].sector > ROOT_DIR_SECTOR && !HasName(links, open[i].sector)
  {
    DroppedHasNot(open, files, inodes, i, Some(open[i].sector));
    SectorExists(open, files, inodes, i, Some(open[i].sector));
    hide Table;
    forall x: nat | x != open[i].sector ensures IsRemoved(Dropped(open, i), x) <==> IsRemoved(open, x) {
      DroppedHas(open, i, x);
    }
  }

  lemma SectorExists(open: seq<OpenInode>, files: seq<Option<File>>, inodes: map<nat, Extent>, i: nat, temp: Option<nat>)
    requires Table(open, files, inodes, temp) && i < |open|
    ensures open[i].sector in inodes && open[i].extent == inodes[open[i].sector]
    ensures open[i].openCnt == Openers(files, open[i].sector, false) + One(temp == Some(open[i].sector)) > 0
  {
    assert EntryOk(open[i], files, inodes, temp);
  }

  /** inode_close by an opener that is not a file any more.  The assertion of
      free_map_release holds, and the sectors of an inode are released exactly when it is
      removed and this was its last opener. */
  lemma CloseKeeps(fs: Fs, s: nat)
    requires Almost(fs, Some(s))
    ensures CanClose(fs, s) && Inv(CloseNode(fs, s))
    ensures var r := CloseNode(fs, s);
      && r.dir == fs.dir && r.files == fs.files
      && (if IsRemoved(fs.open, s) && Openers(fs.files, s, false) == 0
          then s in fs.inodes && r.inodes == fs.inodes - {s} else r.inodes == fs.inodes && r.used == fs.used && r.groups == fs.groups)
  {
    var i := FindOpen(fs.open, s, 0);
    Found(fs.open, s);
    SectorExists(fs.open, fs.files, fs.inodes, i, Some(s));
    DroppedHasNot(fs.open, fs.files, fs.inodes, i, Some(s));
    var o := fs.open[i];
    if o.openCnt > 1 {
      CloseOne(fs, s, i);
    } else {
      CloseLast(fs, s, i);
    }
  }

  lemma CloseOne(fs: Fs, s: nat, i: nat)
    requires Almost(fs, Some(s)) && i == FindOpen(fs.open, s, 0) < |fs.open| && fs.open[i].openCnt > 1
    ensures CanClose(fs, s) && Inv(CloseNode(fs, s)) && CloseNode(fs, s) == fs.(open := CloseNode(fs, s).open)
  {
    CountDown(fs.open, fs.files, fs.inodes, s, i);
    var o := fs.open[i].(openCnt := fs.open[i].openCnt - 1);
    forall x: nat ensures IsRemoved(fs.open[i := o], x) <==> IsRemoved(fs.open, x) {
      SameRemoved(fs.open, i, o, x);
    }
    AliveFor(Bindings(fs.dir), fs.inodes, fs.open, fs.open[i := o]);
    hide Tiled, Owned, Linked, Table, Alive, CanFree;
  }

  lemma CloseLast(fs: Fs, s: nat, i: nat)
    requires Almost(fs, Some(s)) && i == FindOpen(fs.open, s, 0) < |fs.open| && fs.open[i].openCnt == 1
    ensures CanClose(fs, s) && Inv(CloseNode(fs, s))
    ensures var r := CloseNode(fs, s);
      && r.dir == fs.dir && r.files == fs.files
      && (if fs.open[i].removed then r.inodes == fs.inodes - {s}
          else r.inodes == fs.inodes && r.used == fs.used && r.groups == fs.groups)
  {
    LastOpener(fs.open, fs.files, fs.inodes, s, i);
    DroppedAlive(Bindings(fs.dir), fs.inodes, fs.open, fs.files, i);
    DroppedHasNot(fs.open, fs.files, fs.inodes, i, Some(s));
    SectorExists(fs.open, fs.files, fs.inodes, i, Some(s));
    hide Tiled, Owned, Linked, Table, Alive;
    var o := fs.open[i];
    if o.removed {
      FreeKeeps(fs.used, fs.groups, fs.inodes, s, o.extent);
      UnlinkedGoes(fs.dir, fs.inodes, s);
      FreedTable(Dropped(fs.open, i), fs.files, fs.inodes, s);
    }
    assert Dropped(fs.open, i) == fs.open[..i] + fs.open[i + 1..];
  }

  // ---------- names ----------

  /** dir_remove: the name goes, and the inode, which is open, is marked removed. */
  lemma UnlinkKeeps(fs: Fs, s: nat, name: Name, dir: seq<Byte>)
    requires Almost(fs, Some(s)) && name in Bindings(fs.dir) && Bindings(fs.dir)[name] == s
    requires Dir(dir) && Bindings(dir) == Bindings(fs.dir) - {name}
    ensures Almost(MarkRemoved(fs.(dir := dir), s), Some(s))
    ensures IsRemoved(MarkRemoved(fs.(dir := dir), s).open, s)
  {
    hide Tiled, Owned, Bindings, Dir, Openers, Table, Alive;
    var i := FindOpen(fs.open, s, 0);
    Found(fs.open, s);
    TempIsOpen(fs.open, fs.files, fs.inodes, s);
    MarkedTable(fs.open, fs.files, fs.inodes, Some(s), i);
    UnlinkAlive(Bindings(fs.dir), fs.inodes, fs.open, i, name);
    UnlinkLinks(Bindings(fs.dir), fs.inodes, name);
  }

  lemma TempIsOpen(open: seq<OpenInode>, files: seq<Option<File>>, inodes: map<nat, Extent>, s: nat)
    requires Table(open, files, inodes, Some(s))
    ensures IsOpen(open, s)
  {
  }

  lemma UnlinkLinks(links: map<Name, nat>, inodes: map<nat, Extent>, name: Name)
    requires LinksOk(links, inodes)
    ensures LinksOk(links - {name}, inodes)
  {
  }

  lemma UnlinkAlive(links: map<Name, nat>, inodes: map<nat, Extent>, open: seq<OpenInode>, i: nat, name: Name)
    requires Alive(links, inodes, open) && LinksOk(links, inodes)
    requires i < |open| && name in links && links[name] == open[i].sector
    ensures Alive(links - {name}, inodes, open[i := open[i].(removed := true)])
    ensures IsRemoved(open[i := open[i].(removed := true)], open[i].sector)
  {
    var s, o := open[i].sector, open[i].(removed := true);
    var open' := open[i := o];
    assert open'[i].removed && open'[i].sector == s;
    forall x: nat | x != s
      ensures IsRemoved(open', x) <==> IsRemoved(open, x)
      ensures HasName(links - {name}, x) <==> HasName(links, x)
    {
      OtherMarked(open, i, o, x);
      OtherName(links, name, x);
    }
    assert !HasName(links - {name}, s);
  }

  lemma OtherName(links: map<Name, nat>, name: Name, x: nat)
    requires name in links && links[name] != x
    ensures HasName(links - {name}, x) <==> HasName(links, x)
  {
    if HasName(links, x) {
      var n :| n in links && links[n] == x;
      assert n in links - {name};
    }
  }

  lemma OtherMarked(open: seq<OpenInode>, i: nat, o: OpenInode, x: nat)
    requires i < |open| && o.sector == open[i].sector != x
    ensures IsRemoved(open[i := o], x) <==> IsRemoved(open, x)
  {
    var open' := open[i := o];
    if IsRemoved(open, x) {
      var j :| 0 <= j < |open| && open[j].sector == x && open[j].removed;
      assert open'[j] == open[j];
    }
  }

  lemma MarkedTable(open: seq<OpenInode>, files: seq<Option<File>>, inodes: map<nat, Extent>, temp: Option<nat>, i: nat)
    requires Table(open, files, inodes, temp) && i < |open|
    ensures Table(open[i := open[i].(removed := true)], files, inodes, temp)
  {
    var o := open[i].(removed := true);
    var open' := open[i := o];
    forall j | 0 <= j < |open'|
      ensures EntryOk(open'[j], files, inodes, temp)
    {
      assert EntryOk(open[j], files, inodes, temp);
    }
    forall x: nat ensures IsOpen(open', x) <==> IsOpen(open, x) {
      SameSectors(open, i, o, x);
    }
  }

  // ---------- new files ----------

  lemma OwnedWith(groups: map<nat, Group>, inodes: map<nat, Extent>, s: nat, e: Extent)
    requires Owned(groups, inodes) && s !in groups
    requires if SectorsFor(e.length) > 0 then e.start !in groups && e.start != s else e.start == 0
    ensures s !in inodes && Owned(With(groups, s, e), inodes[s := e])
  {
    hide SectorsFor;
  }

  lemma TiledWith(used: seq<bool>, groups: map<nat, Group>, s: nat, e: Extent)
    requires Tiled(used, Lens(groups))
    requires AllAre(used, s, 1, false) && AllAre(SetRange(used, s, 1, true), e.start, SectorsFor(e.length), false)
    ensures s !in groups
    ensures SectorsFor(e.length) > 0 ==> e.start !in groups && e.start != s
    ensures Tiled(SetRange(SetRange(used, s, 1, true), e.start, SectorsFor(e.length), true), Lens(With(groups, s, e)))
  {
    var cnt := SectorsFor(e.length);
    var used1, groups1 := SetRange(used, s, 1, true), groups[s := Group(1, AnInode)];
    TakeTiles(used, Lens(groups), s, 1);
    LensUpdate(groups, s, Group(1, AnInode));
    assert s !in Lens(groups);
    if cnt > 0 {
      TakeTiles(used1, Lens(groups1), e.start, cnt);
      LensUpdate(groups1, e.start, Group(cnt, DataOf(s)));
      assert e.start !in Lens(groups1);
    } else {
      assert SetRange(used1, e.start, 0, true) == used1;
    }
    hide Tiled, AllAre;
  }

  /** The new sectors belong to nothing that exists. */
  lemma NewOwned(used: seq<bool>, groups: map<nat, Group>, inodes: map<nat, Extent>, s: nat, e: Extent)
    requires Tiled(used, Lens(groups)) && Owned(groups, inodes)
    requires AllAre(used, s, 1, false) && AllAre(SetRange(used, s, 1, true), e.start, SectorsFor(e.length), false)
    requires SectorsFor(e.length) == 0 ==> e.start == 0
    ensures s !in inodes && s !in groups
    ensures Tiled(SetRange(SetRange(used, s, 1, true), e.start, SectorsFor(e.length), true), Lens(With(groups, s, e)))
    ensures Owned(With(groups, s, e), inodes[s := e])
  {
    TiledWith(used, groups, s, e);
    OwnedWith(groups, inodes, s, e);
  }

  lemma NewTable(open: seq<OpenInode>, files: seq<Option<File>>, inodes: map<nat, Extent>, s: nat, e: Extent)
    requires Table(open, files, inodes, None) && s !in inodes
    ensures Table(open, files, inodes[s := e], None) && !IsOpen(open, s) && !IsRemoved(open, s)
  {
    forall j | 0 <= j < |open|
      ensures EntryOk(open[j], files, inodes[s := e], None) && open[j].sector != s
    {
      assert EntryOk(open[j], files, inodes, None);
    }
  }

  /** filesys_create: the new file has its own sectors and its name. */
  lemma LinkKeeps(fs: Fs, s: nat, e: Extent, name: Name, dir: seq<Byte>)
    requires Inv(fs) && AllAre(fs.used, s, 1, false) && AllAre(SetRange(fs.used, s, 1, true), e.start, SectorsFor(e.length), false)
    requires SectorsFor(e.length) == 0 ==> e.start == 0
    requires Dir(dir) && name !in Bindings(fs.dir) && Bindings(dir) == Bindings(fs.dir)[name := s]
    ensures Inv(NewNode(fs, s, e).(dir := dir))
  {
    hide Tiled, Owned, Bindings, Dir, Table, Alive, LinksOk, With;
    NewOwned(fs.used, fs.groups, fs.inodes, s, e);
    NewTable(fs.open, fs.files, fs.inodes, s, e);
    SystemSectors(fs, s);
    LinkAlive(Bindings(fs.dir), fs.inodes, fs.open, name, s, e);
  }

  lemma SystemSectors(fs: Fs, s: nat)
    requires Inv(fs) && s !in fs.inodes
    ensures s > ROOT_DIR_SECTOR
  {
    hide Tiled, Owned, Linked, Table;
  }

  lemma LinkAlive(links: map<Name, nat>, inodes: map<nat, Extent>, open: seq<OpenInode>, name: Name, s: nat, e: Extent)
    requires Alive(links, inodes, open) && LinksOk(links, inodes)
    requires name !in links && s !in inodes && s > ROOT_DIR_SECTOR && !IsRemoved(open, s)
    ensures Alive(links[name := s], inodes[s := e], open) && LinksOk(links[name := s], inodes[s := e])
  {
    var links' := links[name := s];
    assert name in links' && links'[name] == s;
    forall x: nat | x != s
      ensures HasName(links', x) <==> HasName(links, x)
    {
      NewName(links, name, s, x);
    }
    assert HasName(links', s);
  }

  lemma NewName(links: map<Name, nat>, name: Name, s: nat, x: nat)
    requires name !in links && x != s
    ensures HasName(links[name := s], x) <==> HasName(links, x)
  {
    if HasName(links, x) {
      var n :| n in links && links[n] == x;
      assert n in links[name := s] && links[name := s][n] == x;
    }
  }

  /** filesys_create when the name cannot be entered: all is as before, but the data of the
      new file stays allocated for ever. */
  lemma LeakKeeps(fs: Fs, s: nat, e: Extent)
    requires Inv(fs) && AllAre(fs.used, s, 1, false) && AllAre(SetRange(fs.used, s, 1, true), e.start, SectorsFor(e.length), false)
    requires SectorsFor(e.length) == 0 ==> e.start == 0
    ensures s in NewNode(fs, s, e).inodes && AllAre(NewNode(fs, s, e).used, s, 1, true)
    ensures var r := DropInode(NewNode(fs, s, e), s);
      && Inv(r)
      && r == fs.(used := r.used, groups := r.groups)
      && r.groups == if SectorsFor(e.length) > 0 then fs.groups[e.start := Group(SectorsFor(e.length), Leaked)] else fs.groups
  {
    hide Tiled, Owned, Linked, Table, Alive, AllAre, SectorsFor, With, LeakedOf;
    NewOwned(fs.used, fs.groups, fs.inodes, s, e);
    TiledWith(fs.used, fs.groups, s, e);
    var n := NewNode(fs, s, e);
    DropOwned(n.used, n.groups, n.inodes, s);
    assert n.inodes - {s} == fs.inodes;
    LeakedGroups(fs.groups, s, e);
  }

  lemma LeakedGroups(groups: map<nat, Group>, s: nat, e: Extent)
    requires s !in groups && (SectorsFor(e.length) > 0 ==> e.start != s)
    ensures LeakedOf(With(groups, s, e), s, e) ==
      if SectorsFor(e.length) > 0 then groups[e.start := Group(SectorsFor(e.length), Leaked)] else groups
  {
    hide SectorsFor;
  }

  lemma OwnedLeaked(groups: map<nat, Group>, inodes: map<nat, Extent>, s: nat)
    requires Owned(groups, inodes) && s in inodes
    ensures Owned(LeakedOf(groups, s, inodes[s]), inodes - {s})
  {
    hide SectorsFor;
  }

  lemma DropOwned(used: seq<bool>, groups: map<nat, Group>, inodes: map<nat, Extent>, s: nat)
    requires Tiled(used, Lens(groups)) && Owned(groups, inodes) && s in inodes
    ensures AllAre(used, s, 1, true)
    ensures Tiled(ReleaseMap(used, s, 1), Lens(LeakedOf(groups, s, inodes[s])))
    ensures Owned(LeakedOf(groups, s, inodes[s]), inodes - {s})
  {
    hide Tiled, AllAre, LeakedOf, SectorsFor;
    OwnedLeaked(groups, inodes, s);
    assert Lens(groups)[s] == 1;
    ReleaseTiles(used, Lens(groups), s);
    LeakedLens(groups, s, inodes[s]);
  }

  lemma LeakedLens(groups: map<nat, Group>, s: nat, e: Extent)
    requires s in groups
    requires SectorsFor(e.length) > 0 ==> e.start in groups && groups[e.start].len == SectorsFor(e.length) && e.start != s
    ensures Lens(LeakedOf(groups, s, e)) == Lens(groups) - {s}
  {
    hide SectorsFor;
    LensUpdate(groups, s, Group(0, Leaked));
    if SectorsFor(e.length) > 0 {
      LensUpdate(groups - {s}, e.start, Group(SectorsFor(e.length), Leaked));
    }
  }
}
