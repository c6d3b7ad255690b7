/** Reading and writing files by sectors, and the flat array of bytes that a file is. */
module Inode {
  import opened Common

  const SECTOR_SIZE := 512

  type Sector = s: seq<Byte> | |s| == SECTOR_SIZE witness seq(SECTOR_SIZE, _ => 0)

  const ZEROS: Sector := seq(SECTOR_SIZE, _ => 0)

  /** Where the data of a file lies: inode_disk. */
  datatype Extent = Extent(start: nat, length: nat)

  function SectorsFor(length: nat): nat { (length + SECTOR_SIZE - 1) / SECTOR_SIZE }

  predicate OnDisk(disk: seq<Sector>, e: Extent) {
    e.start + SectorsFor(e.length) <= |disk|
  }

  /** byte_to_sector and the position within the sector. */
  function SectorOf(e: Extent, pos: nat): nat { e.start + pos / SECTOR_SIZE }

  function SectorOfs(pos: nat): nat { pos % SECTOR_SIZE }

  lemma InExtent(e: Extent, pos: nat)
    requires pos < e.length
    ensures SectorOf(e, pos) < e.start + SectorsFor(e.length)
  {
  }

  /** The bytes of the file. */
  function Flat(disk: seq<Sector>, e: Extent): (s: seq<Byte>)
    requires OnDisk(disk, e)
    ensures |s| == e.length
  {
    seq(e.length, i requires 0 <= i < e.length => ByteAt(disk, e, i))
  }

  function ByteAt(disk: seq<Sector>, e: Extent, i: nat): Byte
    requires OnDisk(disk, e) && i < e.length
  {
    InExtent(e, i);
    disk[SectorOf(e, i)][SectorOfs(i)]
  }

  function Min(a: int, b: int): int { if a < b then a else b }

  function Max(a: int, b: int): int { if a < b then b else a }

  /** chunk_size. */
  function Chunk(e: Extent, size: int, offset: nat): int {
    Min(size, Min(e.length - offset, SECTOR_SIZE - SectorOfs(offset)))
  }

  /** The whole sector, without a bounce buffer. */
  predicate IsFull(e: Extent, size: int, offset: nat) {
    SectorOfs(offset) == 0 && Chunk(e, size, offset) == SECTOR_SIZE
  }

  /** Bytes that a transfer at this offset moves: `memory` tells whether the bounce buffer can
      be allocated. */
  function Transferred(e: Extent, size: int, offset: nat, memory: bool): (n: nat)
    ensures n <= Max(0, Min(size, e.length - offset))
    ensures memory ==> n == Max(0, Min(size, e.length - offset))
    decreases size
  {
    var chunk := Chunk(e, size, offset);
    if chunk <= 0 || (!memory && !IsFull(e, size, offset)) then 0
    else chunk + Transferred(e, size - chunk, offset + chunk, memory)
  }

  // ---------- writing ----------

  /** Sector x after data, written at this offset of the file. */
  function Overwritten(sector: Sector, ofs: nat, data: seq<Byte>): (r: Sector)
    requires ofs + |data| <= SECTOR_SIZE
    ensures forall k :: 0 <= k < SECTOR_SIZE ==> r[k] == if ofs <= k < ofs + |data| then data[k - ofs] else sector[k]
  {
    sector[..ofs] + data + sector[ofs + |data|..]
  }

  /** Byte k of sector x lies in the n bytes of the file from offset on. */
  predicate Hit(e: Extent, offset: nat, n: nat, x: nat, k: nat) {
    x >= e.start && offset <= (x - e.start) * SECTOR_SIZE + k < offset + n
  }

  /** From disk to disk' exactly these bytes of the file change, to data. */
  ghost predicate Writes(disk: seq<Sector>, disk': seq<Sector>, e: Extent, offset: nat, data: seq<Byte>) {
    && |disk'| == |disk|
    && forall x, k :: 0 <= x < |disk| && 0 <= k < SECTOR_SIZE ==>
      disk'[x][k] == if Hit(e, offset, |data|, x, k) then data[(x - e.start) * SECTOR_SIZE + k - offset] else disk[x][k]
  }

  /** One chunk. */
  lemma ChunkWrites(disk: seq<Sector>, e: Extent, size: int, offset: nat, data: seq<Byte>)
    requires OnDisk(disk, e) && Chunk(e, size, offset) > 0 && |data| == Chunk(e, size, offset)
    ensures SectorOf(e, offset) < |disk| && SectorOfs(offset) + |data| <= SECTOR_SIZE
    ensures var x := SectorOf(e, offset);
      Writes(disk, disk[x := Overwritten(disk[x], SectorOfs(offset), data)], e, offset, data)
  {
  }

  /** Two writes in a row are one write. */
  lemma WritesThen(disk: seq<Sector>, mid: seq<Sector>, disk': seq<Sector>, e: Extent, offset: nat, a: seq<Byte>, b: seq<Byte>)
    requires Writes(disk, mid, e, offset, a) && Writes(mid, disk', e, offset + |a|, b)
    ensures Writes(disk, disk', e, offset, a + b)
  {
  }

  lemma WritesNothing(disk: seq<Sector>, e: Extent, offset: nat)
    ensures Writes(disk, disk, e, offset, [])
  {
  }

  /** What a write means for the file: its bytes are spliced. */
  lemma WritesSplices(disk: seq<Sector>, disk': seq<Sector>, e: Extent, offset: nat, data: seq<Byte>)
    requires OnDisk(disk, e) && Writes(disk, disk', e, offset, data) && offset + |data| <= e.length
    ensures Flat(disk', e) == Flat(disk, e)[..offset] + data + Flat(disk, e)[offset + |data|..]
  {
  }

  /** What a write means for every other file: nothing. */
  lemma WritesLeave(disk: seq<Sector>, disk': seq<Sector>, e: Extent, offset: nat, data: seq<Byte>, other: Extent)
    requires Writes(disk, disk', e, offset, data) && offset + |data| <= e.length
    requires OnDisk(disk, e) && OnDisk(disk, other)
    requires e.start + SectorsFor(e.length) <= other.start || other.start + SectorsFor(other.length) <= e.start
    ensures Flat(disk', other) == Flat(disk, other)
  {
  }

  /** A read of what was written returns it. */
  lemma ReadAfterWrite(disk: seq<Sector>, disk': seq<Sector>, e: Extent, offset: nat, data: seq<Byte>)
    requires OnDisk(disk, e) && Writes(disk, disk', e, offset, data) && offset + |data| <= e.length
    ensures Flat(disk', e)[offset..offset + |data|] == data
  {
  }

  // ---------- the device and the two loops ----------

  class Device {
    var sectors: seq<Sector>

    method BlockRead(s: nat) returns (r: Sector)
      requires s < |sectors|
      ensures r == sectors[s]
    {
      r := sectors[s];
    }

    method BlockWrite(s: nat, data: Sector)
      requires s < |sectors|
      modifies this
      ensures sectors == old(sectors)[s := data]
    {
      sectors := sectors[s := data];
    }

    /** inode_read_at: the bytes of the file from the offset on, all of them that the size and
        the length allow when the bounce buffer can be allocated. */
    method ReadAt(e: Extent, size0: int, offset0: nat, memory: bool) returns (buffer: seq<Byte>)
      requires OnDisk(sectors, e)
      ensures |buffer| == Transferred(e, size0, offset0, memory)
      ensures buffer != [] ==> buffer == Flat(sectors, e)[offset0..offset0 + |buffer|]
    {
      hide SectorOf, SectorOfs, Chunk, OnDisk, Flat, Transferred, ReadSoFar;
      var size, offset := size0, offset0;
      buffer := [];
      ReadStarts(sectors, e, size0, offset0, memory);
      while size > 0
        invariant offset >= 0 && ReadSoFar(sectors, e, size0, offset0, memory, buffer, size, offset)
        decreases size
      {
        var chunk := Chunk(e, size, offset);
        if chunk <= 0 {
          break;
        }
        ReadsChunk(sectors, e, size, offset);
        var sectorIdx, sectorOfs := SectorOf(e, offset), SectorOfs(offset);
        if memory || IsFull(e, size, offset) {
          ReadsOn(sectors, e, size0, offset0, memory, buffer, size, offset);
        }
        if sectorOfs == 0 && chunk == SECTOR_SIZE {
          var sector := BlockRead(sectorIdx);
          assert sector == sector[0..chunk];
          buffer := buffer + sector;
        } else {
          if !memory {
            break;
          }
          var bounce := BlockRead(sectorIdx);
          buffer := buffer + bounce[sectorOfs..sectorOfs + chunk];
        }
        size := size - chunk;
        offset := offset + chunk;
      }
      ReadEnds(sectors, e, size0, offset0, memory, buffer, size, offset);
    }

    /** One chunk of a write: directly, or through a bounce buffer that holds what the sector
        has besides. */
    method WriteChunk(e: Extent, data: seq<Byte>, size: int, offset: nat, memory: bool) returns (ok: bool)
      requires OnDisk(sectors, e) && 0 < Chunk(e, size, offset) == |data|
      modifies this
      ensures ok <==> memory || IsFull(e, size, offset)
      ensures ok ==> Writes(old(sectors), sectors, e, offset, data)
      ensures !ok ==> sectors == old(sectors)
    {
      hide Writes, Chunk, SectorOf;
      AtMost(e, size, offset);
      ChunkWrites(sectors, e, size, offset, data);
      var sectorIdx, sectorOfs := SectorOf(e, offset), SectorOfs(offset);
      var sectorLeft := SECTOR_SIZE - sectorOfs;
      if sectorOfs == 0 && |data| == SECTOR_SIZE {
        BlockWrite(sectorIdx, data);
        assert data == Overwritten(old(sectors)[sectorIdx], 0, data);
      } else {
        if !memory {
          return false;
        }
        var bounce := ZEROS;
        if sectorOfs > 0 || |data| < sectorLeft {
          bounce := BlockRead(sectorIdx);
        }
        BlockWrite(sectorIdx, Overwritten(bounce, sectorOfs, data));
      }
      return true;
    }

    /** inode_write_at: exactly the bytes transferred change on the device. */
    method WriteAt(e: Extent, buffer: seq<Byte>, size0: int, offset0: nat, denied: nat, memory: bool) returns (written: nat)
      requires OnDisk(sectors, e) && size0 <= |buffer|
      modifies this
      ensures written == if denied > 0 then 0 else Transferred(e, size0, offset0, memory)
      ensures written <= |buffer|
      ensures Writes(old(sectors), sectors, e, offset0, buffer[..written])
    {
      hide SectorOf, SectorOfs, Chunk, Writes, IsFull;
      written := 0;
      ghost var disk := sectors;
      WritesNothing(sectors, e, offset0);
      if denied > 0 {
        return;
      }
      var size, offset := size0, offset0;
      while size > 0
        invariant offset == offset0 + written && size == size0 - written && OnDisk(sectors, e)
        invariant written + Transferred(e, size, offset, memory) == Transferred(e, size0, offset0, memory)
        invariant written <= |buffer| && Writes(disk, sectors, e, offset0, buffer[..written])
        decreases size
      {
        var chunk := Chunk(e, size, offset);
        if chunk <= 0 {
          break;
        }
        AtMost(e, size, offset);
        ghost var mid := sectors;
        var data := buffer[written..written + chunk];
        var ok := WriteChunk(e, data, size, offset, memory);
        if !ok {
          break;
        }
        assert buffer[..written] + data == buffer[..written + chunk];
        WritesThen(disk, mid, sectors, e, offset0, buffer[..written], data);
        SameSize(mid, sectors, e, offset, data);
        size := size - chunk;
        offset := offset + chunk;
        written := written + chunk;
      }
    }
  }

  lemma SameSize(disk: seq<Sector>, disk': seq<Sector>, e: Extent, offset: nat, data: seq<Byte>)
    requires Writes(disk, disk', e, offset, data)
    ensures |disk'| == |disk|
  {
  }

  lemma AtMost(e: Extent, size: int, offset: nat)
    ensures Chunk(e, size, offset) <= size
    ensures SectorOfs(offset) + Chunk(e, size, offset) <= SECTOR_SIZE
  {
  }

  lemma Glue(flat: seq<Byte>, from: nat, mid: nat, to: nat, a: seq<Byte>, b: seq<Byte>)
    requires from <= mid <= to <= |flat| && (a == [] ==> from == mid)
    requires a != [] ==> a == flat[from..mid]
    requires b == a + flat[mid..to]
    ensures b == flat[from..to]
  {
  }

  /** Where the loop of inode_read_at stands, with size bytes to go. */
  ghost predicate ReadSoFar(disk: seq<Sector>, e: Extent, size0: int, offset0: nat, memory: bool,
                            buffer: seq<Byte>, size: int, offset: nat)
    requires OnDisk(disk, e)
  {
    && offset == offset0 + |buffer|
    && |buffer| + Transferred(e, size, offset, memory) == Transferred(e, size0, offset0, memory)
    && (buffer != [] ==> offset <= e.length && buffer == Flat(disk, e)[offset0..offset])
  }

  lemma ReadStarts(disk: seq<Sector>, e: Extent, size: int, offset: nat, memory: bool)
    requires OnDisk(disk, e)
    ensures ReadSoFar(disk, e, size, offset, memory, [], size, offset)
  {
  }

  lemma ReadsOn(disk: seq<Sector>, e: Extent, size0: int, offset0: nat, memory: bool,
                buffer: seq<Byte>, size: int, offset: nat)
    requires OnDisk(disk, e) && ReadSoFar(disk, e, size0, offset0, memory, buffer, size, offset)
    requires Chunk(e, size, offset) > 0 && (memory || IsFull(e, size, offset)) && offset + Chunk(e, size, offset) <= e.length
    ensures var c := Chunk(e, size, offset);
      ReadSoFar(disk, e, size0, offset0, memory, buffer + Flat(disk, e)[offset..offset + c], size - c, offset + c)
  {
    hide Chunk, Flat, OnDisk;
    var c := Chunk(e, size, offset);
    Glue(Flat(disk, e), offset0, offset, offset + c, buffer, buffer + Flat(disk, e)[offset..offset + c]);
  }

  lemma ReadEnds(disk: seq<Sector>, e: Extent, size0: int, offset0: nat, memory: bool,
                 buffer: seq<Byte>, size: int, offset: nat)
    requires OnDisk(disk, e) && ReadSoFar(disk, e, size0, offset0, memory, buffer, size, offset)
    requires size <= 0 || Chunk(e, size, offset) <= 0 || (!memory && !IsFull(e, size, offset))
    ensures |buffer| == Transferred(e, size0, offset0, memory)
    ensures buffer != [] ==> offset0 + |buffer| <= e.length && buffer == Flat(disk, e)[offset0..offset0 + |buffer|]
  {
  }

  lemma ReadsChunk(disk: seq<Sector>, e: Extent, size: int, offset: nat)
    requires OnDisk(disk, e) && Chunk(e, size, offset) > 0
    ensures var c := Chunk(e, size, offset);
      && c <= size && SectorOf(e, offset) < |disk| && SectorOfs(offset) + c <= SECTOR_SIZE && offset + c <= e.length
      && disk[SectorOf(e, offset)][SectorOfs(offset)..SectorOfs(offset) + c] == Flat(disk, e)[offset..offset + c]
  {
  }
}
