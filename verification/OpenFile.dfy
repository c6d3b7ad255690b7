/** An open file with a position: successive reads and writes run on through the file. */
module OpenFile {
  import opened Common
  import opened Inode

  /** Bytes that file_write moves from this position. */
  function Taken(e: Extent, pos: nat, buffer: seq<Byte>, memory: bool): (n: nat)
    ensures n <= |buffer|
  {
    Transferred(e, |buffer|, pos, memory)
  }

  /** One call of file_write on a file that nobody denies writes to. */
  ghost predicate WroteOn(e: Extent, disk: seq<Sector>, pos: nat, buffer: seq<Byte>, disk': seq<Sector>, pos': nat) {
    Writes(disk, disk', e, pos, buffer[..Taken(e, pos, buffer, true)]) && pos' == pos + Taken(e, pos, buffer, true)
  }

  /** One call of file_read. */
  ghost predicate ReadOn(e: Extent, disk: seq<Sector>, pos: nat, size: int, result: seq<Byte>, pos': nat) {
    && OnDisk(disk, e)
    && |result| == Transferred(e, size, pos, true)
    && (result != [] ==> result == Flat(disk, e)[pos..pos + |result|])
    && pos' == pos + |result|
  }

  function Joined(buffers: seq<seq<Byte>>): seq<Byte> {
    if buffers == [] then [] else Joined(buffers[..|buffers| - 1]) + buffers[|buffers| - 1]
  }

  /** What is left of the data when the file ends. */
  function Fitting(e: Extent, pos: nat, data: seq<Byte>): (r: seq<Byte>)
    ensures r <= data && |r| == Max(0, Min(|data|, e.length - pos))
  {
    data[..Max(0, Min(|data|, e.length - pos))]
  }

  ghost predicate WroteAll(e: Extent, disks: seq<seq<Sector>>, at: seq<nat>, buffers: seq<seq<Byte>>) {
    && |disks| == |at| == |buffers| + 1
    && forall i :: 0 <= i < |buffers| ==> WroteOn(e, disks[i], at[i], buffers[i], disks[i + 1], at[i + 1])
  }

  ghost predicate ReadAll(e: Extent, disk: seq<Sector>, at: seq<nat>, sizes: seq<int>, results: seq<seq<Byte>>) {
    && |at| == |sizes| + 1 && |results| == |sizes|
    && forall i :: 0 <= i < |sizes| ==> ReadOn(e, disk, at[i], sizes[i], results[i], at[i + 1])
  }

  lemma FitsOn(e: Extent, pos: nat, a: seq<Byte>, b: seq<Byte>)
    ensures var m := pos + |Fitting(e, pos, a)|;
      Fitting(e, pos, a + b) == Fitting(e, pos, a) + b[..Taken(e, m, b, true)]
  {
    var m := pos + |Fitting(e, pos, a)|;
    var n := Taken(e, m, b, true);
    assert n == Max(0, Min(|b|, e.length - m));
    if pos + |a| <= e.length {
      assert Fitting(e, pos, a) == a;
    } else {
      assert n == 0;
    }
  }

  /** However the data is cut into writes, it reaches the file as one write would, as far as
      the file goes. */
  lemma {:induction false} WritesRunOn(e: Extent, disks: seq<seq<Sector>>, at: seq<nat>, buffers: seq<seq<Byte>>)
    requires WroteAll(e, disks, at, buffers)
    ensures Writes(disks[0], disks[|buffers|], e, at[0], Fitting(e, at[0], Joined(buffers)))
    ensures at[|buffers|] == at[0] + |Fitting(e, at[0], Joined(buffers))|
  {
    hide Writes, Fitting;
    var n := |buffers|;
    if n == 0 {
      WritesNothing(disks[0], e, at[0]);
    } else {
      var init := buffers[..n - 1];
      WritesRunOn(e, disks[..n], at[..n], init);
      var a, b := Fitting(e, at[0], Joined(init)), buffers[n - 1];
      assert WroteOn(e, disks[n - 1], at[n - 1], b, disks[n], at[n]);
      FitsOn(e, at[0], Joined(init), b);
      WritesThen(disks[0], disks[n - 1], disks[n], e, at[0], a, b[..Taken(e, at[n - 1], b, true)]);
    }
  }

  /** However many bytes at a time are read, they are the bytes of the file in order. */
  lemma {:induction false} ReadsRunOn(e: Extent, disk: seq<Sector>, at: seq<nat>, sizes: seq<int>, results: seq<seq<Byte>>)
    requires OnDisk(disk, e) && ReadAll(e, disk, at, sizes, results) && at[0] <= e.length
    ensures at[0] <= at[|sizes|] <= e.length
    ensures Joined(results) == Flat(disk, e)[at[0]..at[|sizes|]]
  {
    var n := |sizes|;
    if n > 0 {
      hide ReadOn, OnDisk;
      ReadsRunOn(e, disk, at[..n], sizes[..n - 1], results[..n - 1]);
      assert ReadOn(e, disk, at[n - 1], sizes[n - 1], results[n - 1], at[n]);
      ReadOnce(e, disk, at[n - 1], sizes[n - 1], results[n - 1], at[n]);
      Splits(Flat(disk, e), at[0], at[n - 1], at[n]);
    }
  }

  lemma ReadOnce(e: Extent, disk: seq<Sector>, pos: nat, size: int, result: seq<Byte>, pos': nat)
    requires ReadOn(e, disk, pos, size, result, pos') && OnDisk(disk, e) && pos <= e.length
    ensures pos <= pos' <= e.length && result == Flat(disk, e)[pos..pos']
  {
  }

  lemma Splits(flat: seq<Byte>, a: nat, b: nat, c: nat)
    requires a <= b <= c <= |flat|
    ensures flat[a..c] == flat[a..b] + flat[b..c]
  {
  }

  /** Data written in any pieces and read back from the same position in any pieces is the
      data, as far as the file goes and the reads ask. */
  lemma StreamRoundTrip(e: Extent, disks: seq<seq<Sector>>, at: seq<nat>, buffers: seq<seq<Byte>>, back: seq<nat>, sizes: seq<int>, results: seq<seq<Byte>>)
    requires WroteAll(e, disks, at, buffers) && OnDisk(disks[0], e) && at[0] <= e.length
    requires ReadAll(e, disks[|buffers|], back, sizes, results) && back[0] == at[0]
    ensures var data, got := Fitting(e, at[0], Joined(buffers)), Joined(results);
      if |got| <= |data| then got <= data else data <= got
  {
    var disk := disks[|buffers|];
    var data := Fitting(e, at[0], Joined(buffers));
    WritesRunOn(e, disks, at, buffers);
    SameSize(disks[0], disk, e, at[0], data);
    ReadAfterWrite(disks[0], disk, e, at[0], data);
    ReadsRunOn(e, disk, back, sizes, results);
    Prefixes(Flat(disk, e), at[0], |data|, back[|sizes|] - at[0]);
  }

  lemma Prefixes(flat: seq<Byte>, from: nat, a: nat, b: nat)
    requires from + a <= |flat| && from + b <= |flat|
    ensures if b <= a then flat[from..from + b] <= flat[from..from + a] else flat[from..from + a] <= flat[from..from + b]
  {
  }

  class File {
    const device: Device
    const extent: Extent
    var pos: nat

    /** file_open, of an inode with its data there. */
    constructor (device: Device, extent: Extent)
      ensures this.device == device && this.extent == extent && pos == 0
    {
      this.device := device;
      this.extent := extent;
      pos := 0;
    }

    /** file_read. */
    method Read(size: int, memory: bool) returns (buffer: seq<Byte>)
      requires OnDisk(device.sectors, extent)
      modifies this
      ensures |buffer| == Transferred(extent, size, old(pos), memory) && pos == old(pos) + |buffer|
      ensures memory ==> ReadOn(extent, device.sectors, old(pos), size, buffer, pos)
      ensures buffer != [] ==> buffer == Flat(device.sectors, extent)[old(pos)..pos]
    {
      buffer := device.ReadAt(extent, size, pos, memory);
      pos := pos + |buffer|;
    }

    /** file_write. */
    method Write(buffer: seq<Byte>, denied: nat, memory: bool) returns (written: nat)
      requires OnDisk(device.sectors, extent)
      modifies this, device
      ensures written == (if denied > 0 then 0 else Taken(extent, old(pos), buffer, memory)) && pos == old(pos) + written
      ensures Writes(old(device.sectors), device.sectors, extent, old(pos), buffer[..written])
      ensures denied == 0 && memory ==> WroteOn(extent, old(device.sectors), old(pos), buffer, device.sectors, pos)
    {
      written := device.WriteAt(extent, buffer, |buffer|, pos, denied, memory);
      pos := pos + written;
    }

    /** file_seek. */
    method Seek(to: nat)
      modifies this
      ensures pos == to
    {
      pos := to;
    }
  }
}
