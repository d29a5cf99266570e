/** Reading and writing open files at any position (filesys/openfile.cc). The disk only moves
    whole sectors; a write reads the sectors that it covers in part before writing them back. */
module OpenFiles {
  import opened Bytes
  import opened FileLayout

  function Min(a: int, b: int): (m: int)
    ensures m <= a && m <= b && (m == a || m == b)
  {
    if a < b then a else b
  }

  /** A file of contents `c` after a write of `data` at `position`: nothing is written past its end. */
  function Overwritten(c: seq<byte>, position: nat, data: seq<byte>): (r: seq<byte>)
    ensures |r| == |c|
    ensures forall k :: 0 <= k < |c| ==> r[k] == if position <= k < position + |data| then data[k - position] else c[k]
  {
    seq(|c|, k requires 0 <= k < |c| => if position <= k < position + |data| then data[k - position] else c[k])
  }

  function Splice(c: seq<byte>, position: nat, data: seq<byte>): (r: seq<byte>)
    requires position + |data| <= |c|
    ensures |r| == |c|
    ensures forall k :: 0 <= k < |c| ==> r[k] == if position <= k < position + |data| then data[k - position] else c[k]
  {
    c[..position] + data + c[position + |data|..]
  }

  /** What a write of `data` at `position` does to the disk: exactly those bytes of the file change,
      and no sector outside the range of the file that they lie in. */
  ghost predicate WriteEffect(d: Disk, e: Disk, h: Header, position: nat, data: seq<byte>)
    requires IsDisk(d) && HeaderOk(h)
  {
    if data == [] then e == d
    else
      && IsDisk(e) && position + |data| <= h.numBytes
      && Content(e, h) == Splice(Content(d, h), position, data)
      && forall x :: 0 <= x < NUM_SECTORS && x !in h.dataSectors[position / SECTOR_SIZE..LastSector(h, position, data) + 1]
           ==> e[x] == d[x]
  }

  /** The part of a write that lies in the file: splicing it in overwrites what the whole would. */
  lemma SpliceOverwrites(c: seq<byte>, position: nat, data: seq<byte>, n: nat)
    requires n == if position >= |c| then 0 else Min(|data|, |c| - position)
    ensures Overwritten(c, position, data) == if n == 0 then c else Splice(c, position, data[..n])
  {
  }

  function LastSector(h: Header, position: nat, data: seq<byte>): (last: nat)
    requires data != [] && position + |data| <= h.numBytes && h.numSectors == DivRoundUp(h.numBytes, SECTOR_SIZE)
    ensures position / SECTOR_SIZE <= last < h.numSectors
  {
    (position + |data| - 1) / SECTOR_SIZE
  }

  /** The sectors that a write covers are sectors of the file. */
  lemma WrittenPart(h: Header, position: nat, data: seq<byte>)
    requires HeaderOk(h) && data != [] && position + |data| <= h.numBytes
    ensures forall s :: s in h.dataSectors[position / SECTOR_SIZE..LastSector(h, position, data) + 1] ==> s in Sectors(h)
  {
  }

  /** Every file that shares no data sector with the written one keeps its bytes. */
  lemma OtherFilesKeep(d: Disk, e: Disk, h: Header, position: nat, data: seq<byte>, g: Header)
    requires IsDisk(d) && HeaderOk(h) && HeaderOk(g) && WriteEffect(d, e, h, position, data)
    requires forall s :: s in Sectors(g) ==> s !in Sectors(h)
    ensures IsDisk(e) && Content(e, g) == Content(d, g)
  {
    forall i | 0 <= i < g.numSectors
      ensures e[g.dataSectors[i]] == d[g.dataSectors[i]]
    {
      assert g.dataSectors[i] == Sectors(g)[i];
      assert g.dataSectors[i] in Sectors(g);
      if data != [] {
        WrittenPart(h, position, data);
      }
    }
    ContentFrame(d, e, g);
  }

  /** Splicing new data into a window of a file that starts at `base` gives the spliced file's window. */
  lemma BufferIsSpliced(c: seq<byte>, buf: seq<byte>, base: nat, position: nat, data: seq<byte>)
    requires base <= position && position + |data| <= |c| && position + |data| <= base + |buf|
    requires forall k :: base <= k < |c| && k < base + |buf| && !(position <= k < position + |data|) ==> buf[k - base] == c[k]
    ensures forall k :: base <= k < |c| && k < base + |buf| ==>
              Splice(buf, position - base, data)[k - base] == Splice(c, position, data)[k]
  {
  }

  class OpenFile {
    const disk: array<seq<byte>>
    const hdr: Header
    var seekPosition: nat

    ghost predicate Valid()
      reads this, disk
    {
      IsDisk(disk[..]) && HeaderOk(hdr)
    }

    /** FetchFrom of the header at `sector`. */
    constructor (disk: array<seq<byte>>, sector: nat)
      requires IsDisk(disk[..]) && sector < NUM_SECTORS
      ensures this.disk == disk && hdr == DecodeHeader(disk[sector]) && seekPosition == 0
    {
      this.disk := disk;
      hdr := DecodeHeader(disk[sector]);
      seekPosition := 0;
    }

    /** FileHeader::ByteToSector. */
    function ByteToSector(offset: nat): word
      requires offset / SECTOR_SIZE < |hdr.dataSectors|
    {
      hdr.dataSectors[offset / SECTOR_SIZE]
    }

    /** Reads all the sectors from `first` to `last`. */
    method ReadSectors(first: nat, last: nat) returns (buf: seq<byte>)
      requires Valid() && first <= last < hdr.numSectors
      ensures |buf| == (last - first + 1) * SECTOR_SIZE
      ensures forall k :: first * SECTOR_SIZE <= k < hdr.numBytes && k < (last + 1) * SECTOR_SIZE ==>
                buf[k - first * SECTOR_SIZE] == Content(disk[..], hdr)[k]
    {
      buf := [];
      for i := first to last + 1
        invariant |buf| == (i - first) * SECTOR_SIZE
        invariant forall k :: first * SECTOR_SIZE <= k < hdr.numBytes && k < i * SECTOR_SIZE ==>
                    buf[k - first * SECTOR_SIZE] == Content(disk[..], hdr)[k]
      {
        var sector := ByteToSector(i * SECTOR_SIZE);
        assert disk[..][sector] == disk[sector];
        buf := buf + disk[sector];
      }
    }

    method ReadAt(numBytes: int, position: nat) returns (into: seq<byte>)
      requires Valid()
      ensures into == if numBytes <= 0 || position >= hdr.numBytes then []
                      else Content(disk[..], hdr)[position..Min(position + numBytes, hdr.numBytes)]
    {
      var fileLength := hdr.numBytes;
      if numBytes <= 0 || position >= fileLength {
        return [];
      }
      var n := numBytes;
      if position + n > fileLength {
        n := fileLength - position;
      }
      var firstSector := position / SECTOR_SIZE;
      var lastSector := (position + n - 1) / SECTOR_SIZE;
      var buf := ReadSectors(firstSector, lastSector);
      into := buf[position - firstSector * SECTOR_SIZE..position - firstSector * SECTOR_SIZE + n];
      assert into == Content(disk[..], hdr)[position..position + n];
    }

    /** The buffer for a write, before the new data goes in: a sector that the write covers only in
        part holds the file's bytes there. The rest is whatever was in memory. */
    method PartialSectors(firstSector: nat, lastSector: nat, position: nat, n: nat) returns (buf: seq<byte>)
      requires Valid() && position + n <= hdr.numBytes && firstSector <= lastSector
      requires firstSector * SECTOR_SIZE <= position < (firstSector + 1) * SECTOR_SIZE
      requires lastSector * SECTOR_SIZE < position + n <= (lastSector + 1) * SECTOR_SIZE
      ensures |buf| == (lastSector - firstSector + 1) * SECTOR_SIZE
      ensures forall k :: firstSector * SECTOR_SIZE <= k < hdr.numBytes && k < (lastSector + 1) * SECTOR_SIZE
                          && !(position <= k < position + n) ==>
                buf[k - firstSector * SECTOR_SIZE] == Content(disk[..], hdr)[k]
    {
      ghost var c := Content(disk[..], hdr);
      var numSectors := 1 + lastSector - firstSector;
      var uninitialised := new byte[numSectors * SECTOR_SIZE];
      buf := uninitialised[..];
      var firstAligned := position == firstSector * SECTOR_SIZE;
      var lastAligned := position + n == (lastSector + 1) * SECTOR_SIZE;
      if !firstAligned {
        buf := FillSector(buf, firstSector, firstSector);
      }
      if !lastAligned && (firstSector != lastSector || firstAligned) {
        buf := FillSector(buf, firstSector, lastSector);
      }
    }

    /** Reads one sector into its place in the buffer of a write that starts at `firstSector`. */
    method FillSector(buf: seq<byte>, firstSector: nat, sector: nat) returns (filled: seq<byte>)
      requires Valid() && firstSector <= sector && sector * SECTOR_SIZE < hdr.numBytes
      requires (sector - firstSector + 1) * SECTOR_SIZE <= |buf|
      ensures |filled| == |buf|
      ensures forall k :: sector * SECTOR_SIZE <= k < hdr.numBytes && k < (sector + 1) * SECTOR_SIZE ==>
                filled[k - firstSector * SECTOR_SIZE] == Content(disk[..], hdr)[k]
      ensures forall k :: 0 <= k < |buf| && !((sector - firstSector) * SECTOR_SIZE <= k < (sector - firstSector + 1) * SECTOR_SIZE) ==>
                filled[k] == buf[k]
    {
      var part := ReadAt(SECTOR_SIZE, sector * SECTOR_SIZE);
      var at := (sector - firstSector) * SECTOR_SIZE;
      filled := Splice(buf, at, part);
      forall k | sector * SECTOR_SIZE <= k < hdr.numBytes && k < (sector + 1) * SECTOR_SIZE
        ensures filled[k - firstSector * SECTOR_SIZE] == Content(disk[..], hdr)[k]
      {
        assert filled[at + (k - sector * SECTOR_SIZE)] == part[k - sector * SECTOR_SIZE];
      }
    }

    method WriteSectors(first: nat, last: nat, buf: seq<byte>)
      requires Valid() && first <= last < hdr.numSectors && |buf| == (last - first + 1) * SECTOR_SIZE
      modifies disk
      ensures Valid() && SectorsHold(disk[..], hdr, first, last, buf)
      ensures forall x :: 0 <= x < NUM_SECTORS && x !in hdr.dataSectors[first..last + 1] ==> disk[x] == old(disk[x])
    {
      for i := first to last + 1
        invariant Valid()
        invariant forall j :: first <= j < i ==>
                    disk[hdr.dataSectors[j]] == buf[(j - first) * SECTOR_SIZE..(j - first + 1) * SECTOR_SIZE]
        invariant forall x :: 0 <= x < NUM_SECTORS && x !in hdr.dataSectors[first..i] ==> disk[x] == old(disk[x])
      {
        var sector := ByteToSector(i * SECTOR_SIZE);
        assert hdr.dataSectors[first..i + 1] == hdr.dataSectors[first..i] + [sector];
        assert forall j :: 0 <= j < hdr.numSectors ==> hdr.dataSectors[j] == Sectors(hdr)[j];
        disk[sector] := buf[(i - first) * SECTOR_SIZE..(i - first + 1) * SECTOR_SIZE];
      }
    }

    method WriteAt(from: seq<byte>, numBytes: int, position: nat) returns (written: nat)
      requires Valid() && numBytes <= |from|
      modifies disk
      ensures Valid()
      ensures written == if numBytes <= 0 || position >= hdr.numBytes then 0 else Min(numBytes, hdr.numBytes - position)
      ensures Content(disk[..], hdr) == Overwritten(old(Content(disk[..], hdr)), position, from[..if numBytes < 0 then 0 else numBytes])
      ensures WriteEffect(old(disk[..]), disk[..], hdr, position, from[..written])
    {
      var fileLength := hdr.numBytes;
      ghost var c := Content(disk[..], hdr);
      if numBytes <= 0 || position >= fileLength {
        SpliceOverwrites(c, position, from[..if numBytes < 0 then 0 else numBytes], 0);
        return 0;
      }
      written := numBytes;
      if position + numBytes > fileLength {
        written := fileLength - position;
      }
      SpliceOverwrites(c, position, from[..numBytes], written);
      assert from[..numBytes][..written] == from[..written];
      WriteWithin(from[..written], position);
    }

    /** The whole sectors that a write of `data` covers, with the new bytes in place. */
    method FillBuffer(data: seq<byte>, position: nat) returns (firstSector: nat, lastSector: nat, buf: seq<byte>)
      requires Valid() && data != [] && position + |data| <= hdr.numBytes
      ensures firstSector == position / SECTOR_SIZE && lastSector == LastSector(hdr, position, data)
      ensures |buf| == (lastSector - firstSector + 1) * SECTOR_SIZE
      ensures forall k :: firstSector * SECTOR_SIZE <= k < hdr.numBytes && k < firstSector * SECTOR_SIZE + |buf| ==>
                buf[k - firstSector * SECTOR_SIZE] == Splice(Content(disk[..], hdr), position, data)[k]
    {
      firstSector := position / SECTOR_SIZE;
      lastSector := LastSector(hdr, position, data);
      buf := PartialSectors(firstSector, lastSector, position, |data|);
      BufferIsSpliced(Content(disk[..], hdr), buf, firstSector * SECTOR_SIZE, position, data);
      buf := Splice(buf, position - firstSector * SECTOR_SIZE, data);
    }

    /** The part of WriteAt after the request has been clipped to the file. */
    method WriteWithin(data: seq<byte>, position: nat)
      requires Valid() && data != [] && position + |data| <= hdr.numBytes
      modifies disk
      ensures Valid() && WriteEffect(old(disk[..]), disk[..], hdr, position, data)
    {
      ghost var d := disk[..];
      var firstSector, lastSector, buf := FillBuffer(data, position);
      WriteSectors(firstSector, lastSector, buf);
      WrittenIsSplice(d, disk[..], hdr, position, data, buf);
    }

    /** Read and Write start at the seek position and advance it by what they moved. */
    method Read(numBytes: int) returns (into: seq<byte>)
      requires Valid()
      modifies this`seekPosition
      ensures into == if numBytes <= 0 || old(seekPosition) >= hdr.numBytes then []
                      else Content(disk[..], hdr)[old(seekPosition)..Min(old(seekPosition) + numBytes, hdr.numBytes)]
      ensures seekPosition == old(seekPosition) + |into|
    {
      into := ReadAt(numBytes, seekPosition);
      seekPosition := seekPosition + |into|;
    }

    method Write(from: seq<byte>, numBytes: int) returns (written: nat)
      requires Valid() && numBytes <= |from|
      modifies this`seekPosition, disk
      ensures Valid()
      ensures written == if numBytes <= 0 || old(seekPosition) >= hdr.numBytes then 0
                         else Min(numBytes, hdr.numBytes - old(seekPosition))
      ensures Content(disk[..], hdr) ==
                Overwritten(old(Content(disk[..], hdr)), old(seekPosition), from[..if numBytes < 0 then 0 else numBytes])
      ensures seekPosition == old(seekPosition) + written
      ensures WriteEffect(old(disk[..]), disk[..], hdr, old(seekPosition), from[..written])
    {
      written := WriteAt(from, numBytes, seekPosition);
      seekPosition := seekPosition + written;
    }
  }

  ghost predicate SectorsHold(e: Disk, h: Header, first: nat, last: nat, buf: seq<byte>)
    requires IsDisk(e) && HeaderOk(h) && first <= last < h.numSectors && |buf| == (last - first + 1) * SECTOR_SIZE
  {
    forall j :: first <= j <= last ==>
      e[h.dataSectors[j]] == buf[(j - first) * SECTOR_SIZE..(j - first + 1) * SECTOR_SIZE]
  }

  /** Writing back a buffer that holds the new data over the old sectors splices the data in. */
  lemma WrittenIsSplice(d: Disk, e: Disk, h: Header, position: nat, data: seq<byte>, buf: seq<byte>)
    requires IsDisk(d) && IsDisk(e) && HeaderOk(h) && data != [] && position + |data| <= h.numBytes
    requires |buf| == (LastSector(h, position, data) - position / SECTOR_SIZE + 1) * SECTOR_SIZE
    requires SectorsHold(e, h, position / SECTOR_SIZE, LastSector(h, position, data), buf)
    requires forall x :: 0 <= x < NUM_SECTORS && x !in h.dataSectors[position / SECTOR_SIZE..LastSector(h, position, data) + 1]
               ==> e[x] == d[x]
    requires var base := position / SECTOR_SIZE * SECTOR_SIZE;
             forall k :: base <= k < h.numBytes && k < base + |buf| ==>
               buf[k - base] == Splice(Content(d, h), position, data)[k]
    ensures WriteEffect(d, e, h, position, data)
  {
    var first, last := position / SECTOR_SIZE, LastSector(h, position, data);
    forall k | 0 <= k < h.numBytes
      ensures Content(e, h)[k] == Splice(Content(d, h), position, data)[k]
    {
      ByteInSector(h, k);
      var i := k / SECTOR_SIZE;
      if first <= i <= last {
        assert e[h.dataSectors[i]][k % SECTOR_SIZE] == buf[(i - first) * SECTOR_SIZE..(i - first + 1) * SECTOR_SIZE][k % SECTOR_SIZE];
      } else {
        var part := h.dataSectors[first..last + 1];
        assert forall j :: first <= j <= last ==> Sectors(h)[j] == h.dataSectors[j];
        assert Sectors(h)[i] == h.dataSectors[i];
        assert h.dataSectors[i] !in part;
      }
    }
  }

  /** A read of what was just written returns it. */
  lemma ReadBack(d: Disk, e: Disk, h: Header, position: nat, data: seq<byte>)
    requires IsDisk(d) && HeaderOk(h) && WriteEffect(d, e, h, position, data) && data != []
    ensures IsDisk(e) && Content(e, h)[position..position + |data|] == data
    ensures forall k :: 0 <= k < h.numBytes && !(position <= k < position + |data|) ==> Content(e, h)[k] == Content(d, h)[k]
  {
  }
}
