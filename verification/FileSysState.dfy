/** The file system above the sectors: free map, inodes, root directory, the table of open
    inodes, and open files. */
module FileSysState {
  import opened Common
  import opened Bitmap
  import opened Directory
  import opened Inode

  const FREE_MAP_SECTOR := 0
  const ROOT_DIR_SECTOR := 1

  /** An in-memory inode. */
  datatype OpenInode = OpenInode(sector: nat, openCnt: nat, denyCnt: nat, removed: bool, extent: Extent)

  /** An open file: its inode and deny_write. */
  datatype File = File(sector: nat, deny: bool)

  /** What a group of sectors holds: an inode, the data of the file with that inode, or the
      data of a file that could not be entered into the directory. */
  datatype Use = AnInode | DataOf(sector: nat) | Leaked

  datatype Group = Group(len: nat, use: Use)

  /** `used` is the free map, `dir` the contents of the root directory, `open` the list of
      open inodes.  `inodes` holds the inodes that exist on disk; `groups` is history: the
      sectors that the free map gave out and did not take back, by first sector. */
  datatype Fs = Fs(
    used: seq<bool>,
    dir: seq<Byte>,
    inodes: map<nat, Extent>,
    open: seq<OpenInode>,
    files: seq<Option<File>>,
    groups: map<nat, Group>)

  function Lens(groups: map<nat, Group>): map<nat, nat> {
    map g | g in groups :: groups[g].len
  }

  // ---------- counting openers ----------

  predicate Opens(f: Option<File>, s: nat, denying: bool) {
    f.Some? && f.value.sector == s && (denying ==> f.value.deny)
  }

  /** Open files on inode s, or those of them that deny writes. */
  ghost function Openers(files: seq<Option<File>>, s: nat, denying: bool): nat {
    if files == [] then 0
    else Openers(files[..|files| - 1], s, denying) + One(Opens(files[|files| - 1], s, denying))
  }

  lemma {:induction false} OpenersUpdate(files: seq<Option<File>>, i: nat, f: Option<File>, s: nat, denying: bool)
    requires i < |files|
    ensures Openers(files[i := f], s, denying) + One(Opens(files[i], s, denying)) ==
      Openers(files, s, denying) + One(Opens(f, s, denying))
  {
    var n := |files| - 1;
    if i == n {
      assert files[i := f][..n] == files[..n];
    } else {
      assert files[i := f][..n] == files[..n][i := f];
      OpenersUpdate(files[..n], i, f, s, denying);
    }
  }

  lemma OpenersAppend(files: seq<Option<File>>, f: Option<File>, s: nat, denying: bool)
    ensures Openers(files + [f], s, denying) == Openers(files, s, denying) + One(Opens(f, s, denying))
  {
  }

  lemma {:induction false} DenyingIsFewer(files: seq<Option<File>>, s: nat)
    ensures Openers(files, s, true) <= Openers(files, s, false)
  {
    if files != [] {
      DenyingIsFewer(files[..|files| - 1], s);
    }
  }

  lemma {:induction false} OpenersPositive(files: seq<Option<File>>, i: nat, s: nat)
    requires i < |files| && Opens(files[i], s, false)
    ensures Openers(files, s, false) >= 1
  {
    if i < |files| - 1 {
      OpenersPositive(files[..|files| - 1], i, s);
    }
  }

  // ---------- the invariant ----------

  /** Every group has one use; an inode that exists has its own sector and, unless it is
      empty, one group of data. */
  ghost predicate Owned(groups: map<nat, Group>, inodes: map<nat, Extent>) {
    && (forall s :: s >= 0 ==> (s in inodes <==> s in groups && groups[s].use == AnInode))
    && (forall s :: s in groups && groups[s].use == AnInode ==> groups[s].len == 1)
    && (forall s {:trigger inodes[s]} :: s in inodes && SectorsFor(inodes[s].length) > 0 ==>
        inodes[s].start in groups && groups[inodes[s].start] == Group(SectorsFor(inodes[s].length), DataOf(s)))
    && (forall s {:trigger inodes[s]} :: s in inodes && SectorsFor(inodes[s].length) == 0 ==> inodes[s].start == 0)
    && (forall g :: g in groups && groups[g].use.DataOf? ==>
        groups[g].use.sector in inodes && inodes[groups[g].use.sector].start == g
        && SectorsFor(inodes[groups[g].use.sector].length) > 0)
  }

  /** Names link to inodes of files, each by one name. */
  ghost predicate Linked(dir: seq<Byte>, inodes: map<nat, Extent>) {
    && Dir(dir)
    && LinksOk(Bindings(dir), inodes)
  }

  ghost predicate LinksOk(links: map<Name, nat>, inodes: map<nat, Extent>) {
    && (forall n :: n in links ==> links[n] in inodes && links[n] > ROOT_DIR_SECTOR)
    && (forall n, m :: n in links && m in links && links[n] == links[m] ==> n == m)
  }

  ghost predicate HasName(links: map<Name, nat>, s: nat) {
    exists n :: n in links && links[n] == s
  }

  /** Open inodes have distinct sectors; open_cnt counts the open files on the inode, and
      deny_write_cnt those that deny; `temp` is the inode that is open for the duration of a
      call besides. */
  ghost predicate Table(open: seq<OpenInode>, files: seq<Option<File>>, inodes: map<nat, Extent>, temp: Option<nat>) {
    && (forall i, j :: 0 <= i < j < |open| ==> open[i].sector != open[j].sector)
    && (forall i :: 0 <= i < |open| ==> EntryOk(open[i], files, inodes, temp))
    && (forall h :: 0 <= h < |files| && files[h].Some? ==> IsOpen(open, files[h].value.sector))
    && (temp.Some? ==> IsOpen(open, temp.value))
  }

  ghost predicate EntryOk(o: OpenInode, files: seq<Option<File>>, inodes: map<nat, Extent>, temp: Option<nat>) {
    && o.sector in inodes && o.extent == inodes[o.sector]
    && o.openCnt == Openers(files, o.sector, false) + One(temp == Some(o.sector)) > 0
    && o.denyCnt == Openers(files, o.sector, true)
  }

  predicate IsOpen(open: seq<OpenInode>, s: nat) {
    exists i :: 0 <= i < |open| && open[i].sector == s
  }

  predicate IsRemoved(open: seq<OpenInode>, s: nat) {
    exists i :: 0 <= i < |open| && open[i].sector == s && open[i].removed
  }

  /** An inode other than the two of the system exists because it has a name, or because it
      is removed and open; never both. */
  ghost predicate Alive(links: map<Name, nat>, inodes: map<nat, Extent>, open: seq<OpenInode>) {
    && FREE_MAP_SECTOR in inodes && ROOT_DIR_SECTOR in inodes
    && (forall s :: s in inodes ==> (s > ROOT_DIR_SECTOR && !HasName(links, s) <==> IsRemoved(open, s)))
  }

  ghost predicate Almost(fs: Fs, temp: Option<nat>) {
    && |fs.used| <= 0x1_0000_0000
    && Tiled(fs.used, Lens(fs.groups))
    && Owned(fs.groups, fs.inodes)
    && Linked(fs.dir, fs.inodes)
    && Table(fs.open, fs.files, fs.inodes, temp)
    && Alive(Bindings(fs.dir), fs.inodes, fs.open)
  }

  ghost predicate Inv(fs: Fs) {
    Almost(fs, None)
  }

  // ---------- inode.c ----------

  /** The position of inode s in the list of open inodes, from i on. */
  function FindOpen(open: seq<OpenInode>, s: nat, i: nat): (r: nat)
    requires i <= |open|
    ensures i <= r <= |open|
    ensures r < |open| ==> open[r].sector == s
    ensures forall j :: i <= j < r ==> open[j].sector != s
    decreases |open| - i
  {
    if i == |open| || open[i].sector == s then i else FindOpen(open, s, i + 1)
  }

  /** inode_open; `memory` tells whether there is room for a new entry. */
  function OpenNode(fs: Fs, s: nat, memory: bool): (Fs, bool)
    requires s in fs.inodes
  {
    var i := FindOpen(fs.open, s, 0);
    if i < |fs.open| then
      (fs.(open := fs.open[i := fs.open[i].(openCnt := fs.open[i].openCnt + 1)]), true)
    else if memory then
      (fs.(open := [OpenInode(s, 1, 0, false, fs.inodes[s])] + fs.open), true)
    else (fs, false)
  }

  /** The groups without those of inode s, whose extent is e. */
  function Without(groups: map<nat, Group>, s: nat, e: Extent): map<nat, Group> {
    groups - {s} - (if SectorsFor(e.length) > 0 then {e.start} else {})
  }

  /** The groups with those of a new inode. */
  function With(groups: map<nat, Group>, s: nat, e: Extent): map<nat, Group> {
    if SectorsFor(e.length) > 0 then groups[s := Group(1, AnInode)][e.start := Group(SectorsFor(e.length), DataOf(s))]
    else groups[s := Group(1, AnInode)]
  }

  /** The groups when the inode sector is given back and the data is not. */
  function LeakedOf(groups: map<nat, Group>, s: nat, e: Extent): map<nat, Group> {
    if SectorsFor(e.length) > 0 then (groups - {s})[e.start := Group(SectorsFor(e.length), Leaked)] else groups - {s}
  }

  /** free_map_release. */
  function ReleaseMap(used: seq<bool>, start: nat, cnt: nat): seq<bool>
    requires AllAre(used, start, cnt, true)
  {
    SetRange(used, start, cnt, false)
  }

  /** Free the inode s and its data: the assertions of free_map_release are requirements. */
  ghost predicate CanFree(fs: Fs, s: nat, e: Extent) {
    && AllAre(fs.used, s, 1, true)
    && AllAre(ReleaseMap(fs.used, s, 1), e.start, SectorsFor(e.length), true)
  }

  function FreeNode(fs: Fs, s: nat, e: Extent): Fs
    requires CanFree(fs, s, e)
  {
    var cnt := SectorsFor(e.length);
    fs.(used := ReleaseMap(ReleaseMap(fs.used, s, 1), e.start, cnt),
        inodes := fs.inodes - {s},
        groups := Without(fs.groups, s, e))
  }

  /** The entry of the table that inode_close looks at. */
  ghost predicate CanClose(fs: Fs, s: nat) {
    var i := FindOpen(fs.open, s, 0);
    && i < |fs.open| && fs.open[i].openCnt > 0
    && (fs.open[i].openCnt == 1 && fs.open[i].removed ==> CanFree(fs, s, fs.open[i].extent))
  }

  /** inode_close. */
  function CloseNode(fs: Fs, s: nat): Fs
    requires CanClose(fs, s)
  {
    var i := FindOpen(fs.open, s, 0);
    var o := fs.open[i];
    if o.openCnt > 1 then fs.(open := fs.open[i := o.(openCnt := o.openCnt - 1)])
    else
      var fs' := fs.(open := fs.open[..i] + fs.open[i + 1..]);
      if o.removed then FreeNode(fs', s, o.extent) else fs'
  }

  /** inode_remove. */
  function MarkRemoved(fs: Fs, s: nat): Fs {
    var i := FindOpen(fs.open, s, 0);
    if i == |fs.open| then fs else fs.(open := fs.open[i := fs.open[i].(removed := true)])
  }

  /** inode_deny_write and inode_allow_write. */
  function AdjustDeny(fs: Fs, s: nat, d: int): Fs {
    var i := FindOpen(fs.open, s, 0);
    if i == |fs.open| || fs.open[i].denyCnt + d < 0 then fs
    else fs.(open := fs.open[i := fs.open[i].(denyCnt := fs.open[i].denyCnt + d)])
  }

  /** The new inode, its sector and its data, as filesys_create has them before it enters the
      name. */
  function NewNode(fs: Fs, s: nat, e: Extent): Fs
    requires AllAre(fs.used, s, 1, false) && AllAre(SetRange(fs.used, s, 1, true), e.start, SectorsFor(e.length), false)
  {
    var cnt := SectorsFor(e.length);
    fs.(used := SetRange(SetRange(fs.used, s, 1, true), e.start, cnt, true),
        groups := With(fs.groups, s, e),
        inodes := fs.inodes[s := e])
  }

  /** filesys_create gives the inode sector back but not the data. */
  function DropInode(fs: Fs, s: nat): Fs
    requires s in fs.inodes && AllAre(fs.used, s, 1, true)
  {
    fs.(used := ReleaseMap(fs.used, s, 1),
        groups := LeakedOf(fs.groups, s, fs.inodes[s]),
        inodes := fs.inodes - {s})
  }
}
