/** The file system's own code: file headers (filesys/filehdr.cc), directories (filesys/directory.cc),
    the bitmap on disk (userprog/bitmap.cc) and the operations on files (filesys/filesys.cc). */
module FileSystems {
  import opened Bytes
  import opened Sequences
  import opened BitMaps
  import opened Options
  import opened FileLayout
  import opened OpenFiles
  import opened FileSystemSpec
  import opened FileSystemSteps
  import opened FileSystemRuns

  // ---------- File headers ----------

  lemma NothingToAllocate(bits: seq<bool>)
    ensures AllocFrom(bits, 0) == (bits, [])
  {
  }

  lemma AllocFromUnfolds(bits: seq<bool>, n: nat)
    requires 0 < n <= CountClear(bits)
    ensures var f := FirstClear(bits, 0);
            && 0 <= f && n - 1 <= CountClear(bits[f := true])
            && AllocFrom(bits, n).0 == AllocFrom(bits[f := true], n - 1).0
            && AllocFrom(bits, n).1 == [f] + AllocFrom(bits[f := true], n - 1).1
  {
    FindSucceedsIffClear(bits);
    FirstClearIsLeast(bits, 0);
    CountClearUpdate(bits, FirstClear(bits, 0), true);
  }

  class FileHeader {
    var numBytes: word
    var numSectors: word
    const dataSectors: array<word>

    ghost predicate Valid()
      reads this
    {
      dataSectors.Length == NUM_DIRECT
    }

    ghost function Contents(): Header
      reads this, dataSectors
    {
      Header(numBytes, numSectors, dataSectors[..])
    }

    constructor ()
      ensures Valid() && fresh(dataSectors)
    {
      dataSectors := new word[NUM_DIRECT];
    }

    method Allocate(freeMap: BitMap, fileSize: nat) returns (ok: bool)
      requires Valid() && freeMap.Valid() && fileSize <= MAX_FILE_SIZE && freeMap.numBits <= NUM_SECTORS
      requires freeMap.words != dataSectors
      modifies this, dataSectors, freeMap.words
      ensures Valid() && freeMap.Valid()
      ensures var n := DivRoundUp(fileSize, SECTOR_SIZE); var marks := old(freeMap.Contents());
              && (ok <==> n <= CountClear(marks))
              && if ok then
                   && numBytes == fileSize && numSectors == n
                   && dataSectors[..n] == AllocFrom(marks, n).1 && freeMap.Contents() == AllocFrom(marks, n).0
                 else freeMap.Contents() == marks
    {
      numBytes := fileSize;
      numSectors := DivRoundUp(fileSize, SECTOR_SIZE);
      var numClear := freeMap.NumClear();
      if numClear < numSectors {
        return false;
      }
      AllocateSectors(freeMap, numSectors);
      return true;
    }

    method AllocateSectors(freeMap: BitMap, n: nat)
      requires Valid() && freeMap.Valid() && n <= NUM_DIRECT && n <= CountClear(freeMap.Contents())
      requires freeMap.numBits <= NUM_SECTORS && freeMap.words != dataSectors
      modifies dataSectors, freeMap.words
      ensures freeMap.Valid() && freeMap.Contents() == AllocFrom(old(freeMap.Contents()), n).0
      ensures dataSectors[..n] == AllocFrom(old(freeMap.Contents()), n).1
    {
      hide AllocFrom, FirstClear, CountClear, Bits;
      ghost var marks := freeMap.Contents();
      for i := 0 to n
        invariant freeMap.Valid() && n - i <= CountClear(freeMap.Contents())
        invariant AllocFrom(marks, n).0 == AllocFrom(freeMap.Contents(), n - i).0
        invariant AllocFrom(marks, n).1 == dataSectors[..i] + AllocFrom(freeMap.Contents(), n - i).1
      {
        ghost var bits := freeMap.Contents();
        AllocFromUnfolds(bits, n - i);
        var sector := freeMap.Find();
        dataSectors[i] := sector;
        assert dataSectors[..i + 1] == dataSectors[..i] + [sector];
        assert bits[sector := true] == freeMap.Contents();
      }
      NothingToAllocate(freeMap.Contents());
    }

    /** Clears the data sectors' marks. Each is asserted to be marked when its turn comes. */
    method Deallocate(freeMap: BitMap)
      requires Valid() && freeMap.Valid() && numSectors <= NUM_DIRECT && Distinct(dataSectors[..numSectors])
      requires forall i :: 0 <= i < numSectors ==> dataSectors[i] < freeMap.numBits && freeMap.Contents()[dataSectors[i]]
      requires freeMap.words != dataSectors
      modifies freeMap.words
      ensures freeMap.Valid() && freeMap.Contents() == ClearAll(old(freeMap.Contents()), dataSectors[..numSectors])
    {
      ghost var marks, secs := freeMap.Contents(), dataSectors[..numSectors];
      for i := 0 to numSectors
        invariant freeMap.Valid()
        invariant forall k :: i <= k < numSectors ==> freeMap.Contents()[secs[k]]
        invariant ClearAll(marks, secs) == ClearAll(freeMap.Contents(), secs[i..])
      {
        var marked := freeMap.Test(dataSectors[i]);
        assert marked;
        assert secs[i..][0] == secs[i] && secs[i..][1..] == secs[i + 1..];
        freeMap.Clear(dataSectors[i]);
      }
    }

    method FetchFrom(disk: array<seq<byte>>, sector: nat)
      requires Valid() && IsDisk(disk[..]) && sector < NUM_SECTORS
      modifies this, dataSectors
      ensures Valid() && Contents() == DecodeHeader(old(disk[..])[sector])
    {
      var h := DecodeHeader(disk[sector]);
      numBytes, numSectors := h.numBytes, h.numSectors;
      forall i | 0 <= i < NUM_DIRECT {
        dataSectors[i] := h.dataSectors[i];
      }
      assert dataSectors[..] == h.dataSectors;
    }

    method WriteBack(disk: array<seq<byte>>, sector: nat)
      requires Valid() && IsDisk(disk[..]) && sector < NUM_SECTORS
      modifies disk
      ensures IsDisk(disk[..]) && (forall x :: 0 <= x < NUM_SECTORS && x != sector ==> disk[x] == old(disk[x]))
      ensures DecodeHeader(disk[sector]) == old(Contents())
    {
      HeaderRoundTrip(Contents());
      disk[sector] := EncodeHeader(Header(numBytes, numSectors, dataSectors[..]));
    }
  }

  // ---------- Directories ----------

  class Directory {
    const table: array<DirEntry>

    ghost predicate Valid()
      reads this, table
    {
      TableShape(table[..])
    }

    /** `memory` is what the storage of the new table held. */
    constructor (memory: seq<DirEntry>)
      requires TableShape(memory)
      ensures Valid() && fresh(table) && table.Length == |memory|
      ensures forall i :: 0 <= i < table.Length ==> !table[i].inUse
    {
      table := new DirEntry[|memory|](i requires 0 <= i < |memory| => memory[i]);
      new;
      for i := 0 to table.Length
        invariant Valid()
        invariant forall k :: 0 <= k < i ==> !table[k].inUse
      {
        table[i] := table[i].(inUse := false);
      }
    }

    method FindIndex(name: seq<byte>) returns (r: int)
      requires Valid()
      ensures r == FileLayout.FindIndex(table[..], name, 0)
    {
      for i := 0 to table.Length
        invariant FileLayout.FindIndex(table[..], name, 0) == FileLayout.FindIndex(table[..], name, i)
      {
        if table[i].inUse && StrNCmpEqual(table[i].name, name, 0) {
          return i;
        }
      }
      return -1;
    }

    /** The sector of the file's header, or -1. */
    method Find(name: seq<byte>) returns (r: int)
      requires Valid()
      ensures var i := FileLayout.FindIndex(table[..], name, 0);
              r == if i == -1 then -1 else table[i].sector
    {
      var i := FindIndex(name);
      if i != -1 {
        return table[i].sector;
      }
      return -1;
    }

    method Add(name: seq<byte>, newSector: word) returns (ok: bool)
      requires Valid()
      modifies table
      ensures Valid()
      ensures var t := old(table[..]); var slot := FreeEntry(t, 0);
              && (ok <==> FileLayout.FindIndex(t, name, 0) == -1 && slot != -1)
              && table[..] == if ok then t[slot := DirEntry(true, newSector, StrNCpy(t[slot].name, name))] else t
    {
      var found := FindIndex(name);
      if found != -1 {
        return false;
      }
      for i := 0 to table.Length
        invariant table[..] == old(table[..]) && FreeEntry(table[..], 0) == FreeEntry(table[..], i)
      {
        if !table[i].inUse {
          table[i] := DirEntry(true, newSector, StrNCpy(table[i].name, name));
          return true;
        }
      }
      return false;
    }

    method Remove(name: seq<byte>) returns (ok: bool)
      requires Valid()
      modifies table
      ensures Valid()
      ensures var t := old(table[..]); var i := FileLayout.FindIndex(t, name, 0);
              && (ok <==> i != -1)
              && table[..] == if ok then t[i := t[i].(inUse := false)] else t
    {
      var i := FindIndex(name);
      if i == -1 {
        return false;
      }
      table[i] := table[i].(inUse := false);
      return true;
    }

    method FetchFrom(file: OpenFile)
      requires Valid() && file.Valid() && table.Length == NUM_DIR_ENTRIES && file.hdr.numBytes == DIRECTORY_FILE_SIZE
      modifies table
      ensures Valid() && table[..] == DecodeTable(Content(old(file.disk[..]), file.hdr))
    {
      hide DecodeTable, Content, DecodeHeader;
      var bytes := file.ReadAt(DIRECTORY_FILE_SIZE, 0);
      assert bytes == Content(file.disk[..], file.hdr);
      var t := DecodeTable(bytes);
      forall i | 0 <= i < NUM_DIR_ENTRIES {
        table[i] := t[i];
      }
      assert table[..] == t;
    }

    method WriteBack(file: OpenFile)
      requires Valid() && file.Valid() && table.Length == NUM_DIR_ENTRIES && file.hdr.numBytes == DIRECTORY_FILE_SIZE
      modifies file.disk
      ensures file.Valid() && WriteEffect(old(file.disk[..]), file.disk[..], file.hdr, 0, EncodeTable(old(table[..])))
    {
      var bytes := EncodeTable(table[..]);
      var n := file.WriteAt(bytes, DIRECTORY_FILE_SIZE, 0);
      assert bytes[..n] == bytes;
    }
  }

  // ---------- The bitmap file ----------

  method FetchMap(freeMap: BitMap, file: OpenFile)
    requires freeMap.Valid() && freeMap.numBits == NUM_SECTORS && file.Valid() && file.hdr.numBytes == FREE_MAP_FILE_SIZE
    modifies freeMap.words
    ensures freeMap.Valid() && freeMap.words[..] == DecodeWords(Content(old(file.disk[..]), file.hdr))
  {
    var bytes := file.ReadAt(FREE_MAP_FILE_SIZE, 0);
    assert bytes == Content(file.disk[..], file.hdr);
    var ws := DecodeWords(bytes);
    forall i | 0 <= i < freeMap.words.Length {
      freeMap.words[i] := ws[i];
    }
    assert freeMap.words[..] == ws;
  }

  method WriteBackMap(freeMap: BitMap, file: OpenFile)
    requires freeMap.Valid() && freeMap.numBits == NUM_SECTORS && file.Valid() && file.hdr.numBytes == FREE_MAP_FILE_SIZE
    modifies file.disk
    ensures file.Valid() && WriteEffect(old(file.disk[..]), file.disk[..], file.hdr, 0, EncodeWords(old(freeMap.words[..])))
  {
    var bytes := EncodeWords(freeMap.words[..]);
    var n := file.WriteAt(bytes, FREE_MAP_FILE_SIZE, 0);
    assert bytes[..n] == bytes;
  }

  /** Writing the whole of a file gives it those contents. */
  lemma WholeFileWritten(d: Disk, e: Disk, h: Header, data: seq<byte>)
    requires IsDisk(d) && HeaderOk(h) && data != [] && |data| == h.numBytes && WriteEffect(d, e, h, 0, data)
    ensures IsDisk(e) && Content(e, h) == data
    ensures forall x :: 0 <= x < NUM_SECTORS && x !in Sectors(h) ==> e[x] == d[x]
  {
  }

  lemma SystemSectors(d: Disk)
    requires Formatted(d)
    ensures Sectors(DecodeHeader(d[FREE_MAP_SECTOR])) == [2] && Sectors(DecodeHeader(d[DIRECTORY_SECTOR])) == [3, 4]
  {
  }

  lemma MapWritten(d: Disk, e: Disk, words: seq<word>)
    requires Formatted(d) && |words| * BITS_IN_WORD == NUM_SECTORS
    requires HeaderOk(DecodeHeader(d[FREE_MAP_SECTOR]))
    requires WriteEffect(d, e, DecodeHeader(d[FREE_MAP_SECTOR]), 0, EncodeWords(words))
    ensures Formatted(e) && Marks(e) == Bits(words, NUM_SECTORS) && Table(e) == Table(d)
    ensures SameElsewhere(d, e, {})
  {
    hide DecodeHeader, EncodeWords, DecodeWords, DecodeTable, Bits, Content, Sectors, WriteEffect;
    var g := DecodeHeader(d[FREE_MAP_SECTOR]);
    FormattedHeaders(d);
    SystemSectors(d);
    WholeFileWritten(d, e, g, EncodeWords(words));
    WordsRoundTrip(words);
    DirectoryKept(d, e);
  }

  lemma DirectoryWritten(d: Disk, e: Disk, t: seq<DirEntry>)
    requires Formatted(d) && TableShape(t) && |t| == NUM_DIR_ENTRIES
    requires HeaderOk(DecodeHeader(d[DIRECTORY_SECTOR]))
    requires WriteEffect(d, e, DecodeHeader(d[DIRECTORY_SECTOR]), 0, EncodeTable(t))
    ensures Formatted(e) && Table(e) == t && Marks(e) == Marks(d)
    ensures SameElsewhere(d, e, {})
  {
    hide DecodeHeader, EncodeTable, DecodeWords, DecodeTable, Bits, Content, Sectors, WriteEffect;
    var h := DecodeHeader(d[DIRECTORY_SECTOR]);
    FormattedHeaders(d);
    SystemSectors(d);
    WholeFileWritten(d, e, h, EncodeTable(t));
    TableRoundTrip(t);
    MapKept(d, e);
  }

  lemma FreeSectorIsNotFixed(d: Disk)
    requires FsInv(d) && FirstClear(Marks(d), 0) != -1
    ensures FIXED_SECTORS <= FirstClear(Marks(d), 0)
  {
    FirstClearIsLeast(Marks(d), 0);
  }

  /** What Create has done by the time it succeeds. */
  lemma Created(d: Disk, name: seq<byte>, size: nat, h: Header, e: Disk)
    requires FsInv(d) && Formatted(e) && CanCreate(d, name, size)
    requires var sector, slot, n := FirstClear(Marks(d), 0), FreeEntry(Table(d), 0), DivRoundUp(size, SECTOR_SIZE);
             && 0 <= sector && SameElsewhere(d, e, {sector}) && DecodeHeader(e[sector]) == h
             && h.numBytes == size && h.numSectors == n <= |h.dataSectors|
             && n <= CountClear(Marks(d)[sector := true])
             && h.dataSectors[..n] == AllocFrom(Marks(d)[sector := true], n).1
             && Marks(e) == AllocFrom(Marks(d)[sector := true], n).0
             && Table(e) == Table(d)[slot := DirEntry(true, sector, StrNCpy(Table(d)[slot].name, name))]
    ensures CreateStep(d, name, size, true, e)
  {
  }

  // ---------- Files ----------

  class FileSystem {
    const disk: array<seq<byte>>
    const freeMapFile: OpenFile
    const directoryFile: OpenFile

    /** The bitmap's and the directory's files are open. */
    ghost predicate SystemFilesOpen()
      reads this, disk
    {
      && Formatted(disk[..]) && freeMapFile.disk == directoryFile.disk == disk
      && freeMapFile.hdr == DecodeHeader(disk[FREE_MAP_SECTOR]) && directoryFile.hdr == DecodeHeader(disk[DIRECTORY_SECTOR])
    }

    ghost predicate Valid()
      reads this, disk
    {
      FsInv(disk[..]) && SystemFilesOpen()
    }

    /** The directory as an object. `memory` is what its storage held. */
    method FetchDirectory(memory: seq<DirEntry>) returns (directory: Directory)
      requires Valid() && TableShape(memory) && |memory| == NUM_DIR_ENTRIES
      ensures fresh(directory) && fresh(directory.table) && directory.Valid() && directory.table[..] == Table(disk[..])
    {
      FormattedHeaders(disk[..]);
      directory := new Directory(memory);
      directory.FetchFrom(directoryFile);
    }

    method FetchFreeMap() returns (freeMap: BitMap)
      requires Valid()
      ensures fresh(freeMap) && fresh(freeMap.words) && freeMap.Valid() && freeMap.numBits == NUM_SECTORS
      ensures freeMap.Contents() == Marks(disk[..])
    {
      FormattedHeaders(disk[..]);
      freeMap := new BitMap(NUM_SECTORS);
      FetchMap(freeMap, freeMapFile);
    }

    method FlushDirectory(directory: Directory)
      requires SystemFilesOpen() && directory.Valid() && directory.table.Length == NUM_DIR_ENTRIES
      modifies disk
      ensures SystemFilesOpen() && SameElsewhere(old(disk[..]), disk[..], {})
      ensures Marks(disk[..]) == old(Marks(disk[..])) && Table(disk[..]) == old(directory.table[..])
    {
      ghost var d, t := disk[..], directory.table[..];
      FormattedHeaders(d);
      directory.WriteBack(directoryFile);
      DirectoryWritten(d, disk[..], t);
      FormattedHeaders(disk[..]);
    }

    method FlushFreeMap(freeMap: BitMap)
      requires SystemFilesOpen() && freeMap.Valid() && freeMap.numBits == NUM_SECTORS
      modifies disk
      ensures SystemFilesOpen() && SameElsewhere(old(disk[..]), disk[..], {})
      ensures Marks(disk[..]) == old(freeMap.Contents()) && Table(disk[..]) == old(Table(disk[..]))
    {
      ghost var d, words := disk[..], freeMap.words[..];
      FormattedHeaders(d);
      WriteBackMap(freeMap, freeMapFile);
      MapWritten(d, disk[..], words);
      FormattedHeaders(disk[..]);
    }

    /** All or nothing: CreateStep says when it succeeds, and that failure leaves the disk as it was. */
    method Create(name: seq<byte>, initialSize: nat, memory: seq<DirEntry>) returns (success: bool)
      requires Valid() && IsName(name) && initialSize <= MAX_FILE_SIZE
      requires TableShape(memory) && |memory| == NUM_DIR_ENTRIES
      modifies disk
      ensures Valid() && CreateStep(old(disk[..]), name, initialSize, success, disk[..])
    {
      hide AllocFrom, FirstClear, CountClear, DecodeTable, DecodeHeader, EncodeHeader, Bits, FileLayout.FindIndex, FreeEntry,
        StrNCpy, EntriesOk, Disjoint, KeysDistinct, MarksOwned, Marks, Table, SystemFilesOpen;
      ghost var d := disk[..];
      var directory := FetchDirectory(memory);
      var found := directory.Find(name);
      if found != -1 {
        return false;
      }
      var freeMap := FetchFreeMap();
      FirstClearIsLeast(Marks(d), 0);
      FindSucceedsIffClear(Marks(d));
      var sector := freeMap.Find();
      if sector == -1 {
        return false;
      }
      FreeSectorIsNotFixed(d);
      CountClearUpdate(Marks(d), sector, true);
      var added := directory.Add(name, sector);
      if !added {
        return false;
      }
      var hdr := new FileHeader();
      success := hdr.Allocate(freeMap, initialSize);
      if success {
        ghost var h := hdr.Contents();
        StoreFile(hdr, sector, freeMap, directory);
        Created(d, name, initialSize, h, disk[..]);
        CreateKeepsInv(d, name, initialSize, disk[..]);
      }
    }

    /** Writes a new file's header to its sector, then the directory and the bitmap. */
    method StoreFile(hdr: FileHeader, sector: nat, freeMap: BitMap, directory: Directory)
      requires Valid() && hdr.Valid() && FIXED_SECTORS <= sector < NUM_SECTORS
      requires freeMap.Valid() && freeMap.numBits == NUM_SECTORS && directory.Valid() && directory.table.Length == NUM_DIR_ENTRIES
      modifies disk
      ensures Formatted(disk[..]) && SystemFilesOpen() && SameElsewhere(old(disk[..]), disk[..], {sector})
      ensures DecodeHeader(disk[sector]) == old(hdr.Contents())
      ensures Marks(disk[..]) == old(freeMap.Contents()) && Table(disk[..]) == old(directory.table[..])
    {
      ghost var d := disk[..];
      hdr.WriteBack(disk, sector);
      SystemFilesKeep(d, disk[..]);
      FlushDirectory(directory);
      FlushFreeMap(freeMap);
    }

    /** Opens the file of this name, if there is one. */
    method Open(name: seq<byte>, memory: seq<DirEntry>) returns (file: OpenFile?)
      requires Valid() && IsName(name) && TableShape(memory) && |memory| == NUM_DIR_ENTRIES
      ensures file == null <==> Lookup(disk[..], name) == None
      ensures file != null ==>
                && file.disk == disk && file.Valid() && file.seekPosition == 0
                && file.hdr == DecodeHeader(disk[Table(disk[..])[FileLayout.FindIndex(Table(disk[..]), name, 0)].sector])
                && Lookup(disk[..], name) == Some(Content(disk[..], file.hdr))
    {
      var directory := FetchDirectory(memory);
      var sector := directory.Find(name);
      file := null;
      ghost var i := FileLayout.FindIndex(Table(disk[..]), name, 0);
      assert i != -1 ==> EntryOk(disk[..], Table(disk[..])[i]);
      if sector >= 0 {
        file := new OpenFile(disk, sector);
      }
    }

    method Remove(name: seq<byte>, memory: seq<DirEntry>) returns (success: bool)
      requires Valid() && IsName(name) && TableShape(memory) && |memory| == NUM_DIR_ENTRIES
      modifies disk
      ensures Valid() && RemoveStep(old(disk[..]), name, success, disk[..])
    {
      ghost var d := disk[..];
      var directory := FetchDirectory(memory);
      var sector := directory.Find(name);
      if sector == -1 {
        return false;
      }
      ghost var i := FileLayout.FindIndex(Table(d), name, 0);
      RemovedSectorsAreMarked(d, i);
      var fileHdr := new FileHeader();
      fileHdr.FetchFrom(disk, sector);
      var freeMap := FetchFreeMap();
      ghost var secs := fileHdr.dataSectors[..fileHdr.numSectors];
      fileHdr.Deallocate(freeMap);
      freeMap.Clear(sector);
      var _ := directory.Remove(name);
      FlushFreeMap(freeMap);
      FlushDirectory(directory);
      RemoveKeepsInv(d, name, disk[..]);
      return true;
    }

    /** Formats the disk, or starts from one formatted before. */
    constructor (disk: array<seq<byte>>, format: bool, memory: seq<DirEntry>)
      requires IsDisk(disk[..]) && (!format ==> FsInv(disk[..]))
      requires TableShape(memory) && |memory| == NUM_DIR_ENTRIES
      modifies disk
      ensures this.disk == disk && Valid()
      ensures if format then EmptyFs(disk[..]) else disk[..] == old(disk[..])
    {
      if format {
        Format(disk, memory);
        EmptyShows(disk[..]);
      }
      this.disk := disk;
      freeMapFile := new OpenFile(disk, FREE_MAP_SECTOR);
      directoryFile := new OpenFile(disk, DIRECTORY_SECTOR);
    }
  }

  // ---------- Formatting ----------

  predicate MarkedBelow(bits: seq<bool>, k: nat) {
    forall x :: 0 <= x < |bits| ==> (bits[x] <==> x < k)
  }

  /** Allocating from a map marked up to `k` takes the next sectors in order. */
  lemma {:induction false} AllocInOrder(bits: seq<bool>, k: nat, n: nat)
    requires MarkedBelow(bits, k) && k + n <= |bits|
    ensures CountClear(bits) == |bits| - k
    ensures AllocFrom(bits, n).1 == seq(n, i requires 0 <= i => k + i) && MarkedBelow(AllocFrom(bits, n).0, k + n)
    decreases n
  {
    CountClearPrefix(bits, k);
    if n > 0 {
      FirstClearIsLeast(bits, 0);
      assert !bits[k] && FirstClear(bits, 0) == k;
      AllocFromUnfolds(bits, n);
      AllocInOrder(bits[k := true], k + 1, n - 1);
    }
  }

  method AllocateSystemFiles(freeMap: BitMap, mapHdr: FileHeader, dirHdr: FileHeader)
    requires freeMap.Valid() && freeMap.numBits == NUM_SECTORS && MarkedBelow(freeMap.Contents(), 0)
    requires mapHdr.Valid() && dirHdr.Valid() && mapHdr != dirHdr && mapHdr.dataSectors != dirHdr.dataSectors
    requires freeMap.words != mapHdr.dataSectors && freeMap.words != dirHdr.dataSectors
    modifies freeMap.words, mapHdr, mapHdr.dataSectors, dirHdr, dirHdr.dataSectors
    ensures freeMap.Valid() && MarkedBelow(freeMap.Contents(), FIXED_SECTORS)
    ensures mapHdr.numBytes == FREE_MAP_FILE_SIZE && mapHdr.numSectors == 1 && mapHdr.dataSectors[..1] == [2]
    ensures dirHdr.numBytes == DIRECTORY_FILE_SIZE && dirHdr.numSectors == 2 && dirHdr.dataSectors[..2] == [3, 4]
  {
    hide AllocFrom, FirstClear, CountClear, Bits;
    freeMap.Mark(FREE_MAP_SECTOR);
    freeMap.Mark(DIRECTORY_SECTOR);
    AllocInOrder(freeMap.Contents(), 2, 1);
    var ok := mapHdr.Allocate(freeMap, FREE_MAP_FILE_SIZE);
    assert ok;
    AllocInOrder(freeMap.Contents(), 3, 2);
    ok := dirHdr.Allocate(freeMap, DIRECTORY_FILE_SIZE);
    assert ok;
  }

  /** The first contents of the two system files, whose headers are on disk. */
  method FormatFiles(disk: array<seq<byte>>, freeMap: BitMap, directory: Directory)
    requires Formatted(disk[..]) && freeMap.Valid() && freeMap.numBits == NUM_SECTORS
    requires MarkedBelow(freeMap.Contents(), FIXED_SECTORS)
    requires directory.Valid() && directory.table.Length == NUM_DIR_ENTRIES
    requires forall i :: 0 <= i < NUM_DIR_ENTRIES ==> !directory.table[i].inUse
    modifies disk
    ensures EmptyFs(disk[..])
  {
    hide AllocFrom, DecodeTable, EncodeTable, EncodeWords, DecodeWords, DecodeHeader, Content, Sectors, WriteEffect, Table, Marks, Bits;
    FormattedHeaders(disk[..]);
    var freeMapFile := new OpenFile(disk, FREE_MAP_SECTOR);
    var directoryFile := new OpenFile(disk, DIRECTORY_SECTOR);
    ghost var d, words, t := disk[..], freeMap.words[..], directory.table[..];
    WriteBackMap(freeMap, freeMapFile);
    ghost var e := disk[..];
    MapWritten(d, e, words);
    FormattedHeaders(e);
    directory.WriteBack(directoryFile);
    DirectoryWritten(e, disk[..], t);
  }

  method Format(disk: array<seq<byte>>, memory: seq<DirEntry>)
    requires IsDisk(disk[..]) && TableShape(memory) && |memory| == NUM_DIR_ENTRIES
    modifies disk
    ensures EmptyFs(disk[..])
  {
    hide AllocFrom, FirstClear, CountClear, DecodeTable, DecodeHeader, EncodeHeader, Content, Sectors, Bits, EmptyFs;
    var freeMap := new BitMap(NUM_SECTORS);
    var directory := new Directory(memory);
    var mapHdr := new FileHeader();
    var dirHdr := new FileHeader();
    AllocateSystemFiles(freeMap, mapHdr, dirHdr);
    mapHdr.WriteBack(disk, FREE_MAP_SECTOR);
    dirHdr.WriteBack(disk, DIRECTORY_SECTOR);
    FormatFiles(disk, freeMap, directory);
  }
}
