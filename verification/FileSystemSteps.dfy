/** Create, Remove and writes keep the file system's invariant, and do to the files what their
    names say. */
module FileSystemSteps {
  import opened Bytes
  import opened Sequences
  import opened BitMaps
  import opened Options
  import opened FileLayout
  import opened OpenFiles
  import opened FileSystemSpec

  // ---------- Frame rules ----------

  lemma MapKept(d: Disk, e: Disk)
    requires Formatted(d) && IsDisk(e) && e[2] == d[2]
    requires e[FREE_MAP_SECTOR] == d[FREE_MAP_SECTOR] && e[DIRECTORY_SECTOR] == d[DIRECTORY_SECTOR]
    ensures Formatted(e) && Marks(e) == Marks(d)
  {
    var g := DecodeHeader(d[FREE_MAP_SECTOR]);
    FormattedHeaders(d);
    assert g.dataSectors[0] == g.dataSectors[..1][0];
    hide DecodeHeader, DecodeWords, Bits, HeaderOk;
    ContentFrame(d, e, g);
  }

  lemma DirectoryKept(d: Disk, e: Disk)
    requires Formatted(d) && IsDisk(e) && e[3] == d[3] && e[4] == d[4]
    requires e[FREE_MAP_SECTOR] == d[FREE_MAP_SECTOR] && e[DIRECTORY_SECTOR] == d[DIRECTORY_SECTOR]
    ensures Formatted(e) && Table(e) == Table(d)
  {
    var h := DecodeHeader(d[DIRECTORY_SECTOR]);
    FormattedHeaders(d);
    assert h.dataSectors[0] == h.dataSectors[..2][0] && h.dataSectors[1] == h.dataSectors[..2][1];
    hide DecodeHeader, DecodeTable, HeaderOk;
    ContentFrame(d, e, h);
  }

  lemma SystemFilesKeep(d: Disk, e: Disk)
    requires Formatted(d) && IsDisk(e) && forall x :: 0 <= x < FIXED_SECTORS ==> e[x] == d[x]
    ensures Formatted(e) && Marks(e) == Marks(d) && Table(e) == Table(d)
  {
    MapKept(d, e);
    DirectoryKept(d, e);
  }

  /** A file depends only on the sectors it owns. */
  lemma SameFile(d: Disk, e: Disk, en: DirEntry)
    requires IsDisk(d) && IsDisk(e) && EntryOk(d, en) && en.inUse
    requires forall x :: 0 <= x < NUM_SECTORS && Owns(d, en, x) ==> e[x] == d[x]
    ensures EntryOk(e, en) && (forall x :: Owns(e, en, x) <==> Owns(d, en, x))
    ensures Content(e, DecodeHeader(e[en.sector])) == Content(d, DecodeHeader(d[en.sector]))
  {
  }

  /** Every entry but `i` is the same, and the sectors it owns hold the same bytes. */
  ghost predicate OthersKept(d: Disk, e: Disk, i: int)
    requires FsInv(d) && Formatted(e)
  {
    && (forall j :: 0 <= j < NUM_DIR_ENTRIES && j != i ==> Table(e)[j] == Table(d)[j])
    && (forall j, x :: 0 <= j < NUM_DIR_ENTRIES && j != i && 0 <= x < NUM_SECTORS && Owns(d, Table(d)[j], x) ==> e[x] == d[x])
  }

  /** What sector `x` must be like for the disk `e` with its entry `i` replaced. */
  ghost predicate MarkedAs(d: Disk, e: Disk, i: int, x: int)
    requires FsInv(d) && Formatted(e) && 0 <= i < NUM_DIR_ENTRIES && EntryOk(e, Table(e)[i]) && 0 <= x < NUM_SECTORS
  {
    && (Owns(e, Table(e)[i], x) ==> forall j :: 0 <= j < NUM_DIR_ENTRIES && j != i ==> !Owns(d, Table(d)[j], x))
    && (Marks(e)[x] <==>
          || x < FIXED_SECTORS || Owns(e, Table(e)[i], x)
          || exists j :: 0 <= j < NUM_DIR_ENTRIES && j != i && Owns(d, Table(d)[j], x))
  }

  lemma KeptEntries(d: Disk, e: Disk, i: int)
    requires FsInv(d) && Formatted(e) && OthersKept(d, e, i)
    ensures forall j :: 0 <= j < NUM_DIR_ENTRIES && j != i ==>
              EntryOk(e, Table(d)[j]) && forall x :: Owns(e, Table(d)[j], x) <==> Owns(d, Table(d)[j], x)
  {
  }

  /** Replacing one entry and marking accordingly keeps the invariant. */
  lemma SlotUpdate(d: Disk, e: Disk, i: nat)
    requires FsInv(d) && Formatted(e) && i < NUM_DIR_ENTRIES && OthersKept(d, e, i)
    requires EntryOk(e, Table(e)[i]) && forall x :: 0 <= x < NUM_SECTORS ==> MarkedAs(d, e, i, x)
    requires Table(e)[i].inUse ==> forall j :: j != i ==> !KeyAt(Table(d), j, StoredKey(Table(e)[i].name))
    ensures FsInv(e)
  {
    hide DecodeHeader, Sectors, StoredKey, Marks, Table, HeaderOk, IsDisk;
    KeptEntries(d, e, i);
    var t, u := Table(d), Table(e);
    assert EntriesOk(e, u);
    forall j, k, x | 0 <= j < |u| && 0 <= k < |u| && j != k && Owns(e, u[j], x)
      ensures !Owns(e, u[k], x)
    {
      assert 0 <= x < NUM_SECTORS && MarkedAs(d, e, i, x);
    }
    forall j, k | 0 <= j < |u| && 0 <= k < |u| && j != k && u[j].inUse && u[k].inUse
      ensures StoredKey(u[j].name) != StoredKey(u[k].name)
    {
      assert j == i ==> !KeyAt(t, k, StoredKey(u[i].name));
      assert k == i ==> !KeyAt(t, j, StoredKey(u[i].name));
    }
    forall x | 0 <= x < NUM_SECTORS
      ensures Marks(e)[x] <==> Owned(e, u, x)
    {
      assert MarkedAs(d, e, i, x);
    }
  }

  // ---------- Looking names up ----------

  ghost function FileAt(d: Disk, i: nat): seq<byte>
    requires IsDisk(d) && Formatted(d) && i < NUM_DIR_ENTRIES && EntryOk(d, Table(d)[i]) && Table(d)[i].inUse
  {
    Content(d, DecodeHeader(d[Table(d)[i].sector]))
  }

  lemma LookupAt(d: Disk, i: nat, name: seq<byte>)
    requires FsInv(d) && IsName(name) && KeyAt(Table(d), i, Key(name))
    ensures FindIndex(Table(d), name, 0) == i
    ensures EntryOk(d, Table(d)[i]) && Lookup(d, name) == Some(FileAt(d, i))
  {
    FindIndexByKey(Table(d), name, 0);
  }

  lemma LookupNone(d: Disk, name: seq<byte>)
    requires FsInv(d) && IsName(name) && forall j :: !KeyAt(Table(d), j, Key(name))
    ensures FindIndex(Table(d), name, 0) == -1 && Lookup(d, name) == None
  {
    FindIndexByKey(Table(d), name, 0);
  }

  /** A name that is not at entry `i` before or after means what it meant. */
  lemma OtherNamesKept(d: Disk, e: Disk, i: nat, name: seq<byte>)
    requires FsInv(d) && FsInv(e) && OthersKept(d, e, i) && IsName(name)
    requires !KeyAt(Table(d), i, Key(name)) && !KeyAt(Table(e), i, Key(name))
    ensures Lookup(e, name) == Lookup(d, name)
  {
    FindIndexByKey(Table(d), name, 0);
    var j := FindIndex(Table(d), name, 0);
    if j == -1 {
      forall k
        ensures !KeyAt(Table(e), k, Key(name))
      {
        assert !KeyAt(Table(d), k, Key(name));
      }
      LookupNone(e, name);
    } else {
      assert KeyAt(Table(e), j, Key(name));
      LookupAt(e, j, name);
      assert EntryOk(d, Table(d)[j]);
      SameFile(d, e, Table(d)[j]);
    }
  }

  // ---------- Create ----------

  /** The header sector and data sectors of a new file were clear, and are what is newly marked. */
  lemma NewFileSectors(d: Disk, name: seq<byte>, size: nat, e: Disk)
    requires FsInv(d) && size <= MAX_FILE_SIZE && CreateStep(d, name, size, true, e)
    ensures var sector := FirstClear(Marks(d), 0); var h := DecodeHeader(e[sector]);
            && 0 <= sector < NUM_SECTORS && HeaderOk(h) && sector !in Sectors(h) && !Marks(d)[sector]
            && (forall s :: s in Sectors(h) ==> s < NUM_SECTORS && !Marks(d)[s])
            && (forall x :: 0 <= x < NUM_SECTORS ==> (Marks(e)[x] <==> Marks(d)[x] || x == sector || x in Sectors(h)))
  {
    hide AllocFrom, CountClear, FirstClear, DecodeHeader, DecodeTable, Bits, StrNCpy, StoredKey, EntriesOk, Disjoint, KeysDistinct,
      MarksOwned;
    var sector := FirstClear(Marks(d), 0);
    FirstClearIsLeast(Marks(d), 0);
    var h := DecodeHeader(e[sector]);
    var bits := Marks(d)[sector := true];
    AllocFromIsFresh(bits, DivRoundUp(size, SECTOR_SIZE));
    forall i | 0 <= i < h.numSectors
      ensures h.dataSectors[i] < NUM_SECTORS
    {
      assert Sectors(h)[i] in Sectors(h);
    }
  }

  lemma CreateKeepsInv(d: Disk, name: seq<byte>, size: nat, e: Disk)
    requires FsInv(d) && IsName(name) && size <= MAX_FILE_SIZE && CreateStep(d, name, size, true, e)
    ensures FsInv(e) && OthersKept(d, e, FreeEntry(Table(d), 0))
  {
    hide DecodeHeader, AllocFrom, CountClear, FirstClear, DecodeTable, Bits, StoredKey, HeaderOk, Marks, Table, StrNCpy;
    NewFileSectors(d, name, size, e);
    var sector, slot := FirstClear(Marks(d), 0), FreeEntry(Table(d), 0);
    forall x | 0 <= x < NUM_SECTORS && !Marks(d)[x]
      ensures !Owned(d, Table(d), x)
    {
    }
    assert forall x :: Owns(e, Table(e)[slot], x) <==> x == sector || x in Sectors(DecodeHeader(e[sector]));
    assert forall x :: !Owns(d, Table(d)[slot], x);
    forall x | 0 <= x < NUM_SECTORS
      ensures MarkedAs(d, e, slot, x)
    {
      assert Marks(d)[x] <==> Owned(d, Table(d), x);
    }
    NamesCompareByKey(Table(d)[slot].name, name);
    FindIndexByKey(Table(d), name, 0);
    SlotUpdate(d, e, slot);
  }

  /** The new name reads as a file of the requested size; every other name keeps its file. */
  lemma CreateEffect(d: Disk, name: seq<byte>, size: nat, e: Disk)
    requires FsInv(d) && IsName(name) && size <= MAX_FILE_SIZE && CreateStep(d, name, size, true, e)
    ensures FsInv(e) && Lookup(d, name) == None
    ensures Lookup(e, name).Some? && |Lookup(e, name).value| == size
    ensures forall other :: IsName(other) && Key(other) != Key(name) ==> Lookup(e, other) == Lookup(d, other)
  {
    CreateKeepsInv(d, name, size, e);
    var slot := FreeEntry(Table(d), 0);
    NamesCompareByKey(Table(d)[slot].name, name);
    LookupAt(e, slot, name);
    forall other | IsName(other) && Key(other) != Key(name)
      ensures Lookup(e, other) == Lookup(d, other)
    {
      OtherNamesKept(d, e, slot, other);
    }
  }

  /** Where Create puts a new file: its entry is the first not in use, its header the first clear sector,
      and its data the first clear ones besides, in order. */
  lemma CreatePlaces(d: Disk, name: seq<byte>, size: nat, e: Disk) returns (slot: nat, sector: nat)
    requires FsInv(d) && IsName(name) && size <= MAX_FILE_SIZE && CreateStep(d, name, size, true, e)
    ensures Formatted(e) && slot < NUM_DIR_ENTRIES && sector < NUM_SECTORS
    ensures Table(e)[slot].inUse && Table(e)[slot].sector == sector
    ensures forall j :: 0 <= j < NUM_DIR_ENTRIES && j != slot ==> Table(e)[j] == Table(d)[j]
    ensures !Table(d)[slot].inUse && forall j :: 0 <= j < slot ==> Table(d)[j].inUse
    ensures !Marks(d)[sector] && forall x :: 0 <= x < sector ==> Marks(d)[x]
    ensures var h := DecodeHeader(e[sector]); HeaderOk(h) && h.numBytes == size && FirstFit(Marks(d)[sector := true], Sectors(h))
  {
    hide DecodeHeader, AllocFrom, CountClear, FirstClear, DecodeTable, Bits, StoredKey, HeaderOk, Marks, Table, StrNCpy, FirstFit;
    slot, sector := FreeEntry(Table(d), 0), FirstClear(Marks(d), 0);
    NewFileSectors(d, name, size, e);
    FirstClearIsLeast(Marks(d), 0);
    AllocFromIsFirstFit(Marks(d)[sector := true], DivRoundUp(size, SECTOR_SIZE));
  }

  // ---------- Remove ----------

  /** Deallocate's assertion holds at every sector that Remove frees: the header sector and the data
      sectors are marked, and no sector is freed twice. */
  lemma RemovedSectorsAreMarked(d: Disk, i: nat)
    requires FsInv(d) && i < NUM_DIR_ENTRIES && Table(d)[i].inUse
    ensures EntryOk(d, Table(d)[i])
    ensures var sector := Table(d)[i].sector; var secs := Sectors(DecodeHeader(d[sector]));
            && Marks(d)[sector] && Distinct(secs) && sector !in secs
            && forall k :: 0 <= k < |secs| ==> secs[k] < NUM_SECTORS && Marks(d)[secs[k]]
  {
  }

  /** Remove clears exactly the marks of the sectors that the file owned. */
  lemma RemovedMarks(d: Disk, name: seq<byte>, e: Disk, x: nat)
    requires FsInv(d) && RemoveStep(d, name, true, e) && x < NUM_SECTORS
    ensures var i := FindIndex(Table(d), name, 0);
            EntryOk(d, Table(d)[i]) && (Marks(e)[x] <==> Marks(d)[x] && !Owns(d, Table(d)[i], x))
  {
    var i := FindIndex(Table(d), name, 0);
    RemovedSectorsAreMarked(d, i);
    var sector := Table(d)[i].sector;
    ClearAllClears(Marks(d), Sectors(DecodeHeader(d[sector])));
  }

  lemma RemoveKeepsInv(d: Disk, name: seq<byte>, e: Disk)
    requires FsInv(d) && IsName(name) && RemoveStep(d, name, true, e)
    ensures FsInv(e) && OthersKept(d, e, FindIndex(Table(d), name, 0))
  {
    var i := FindIndex(Table(d), name, 0);
    forall x | 0 <= x < NUM_SECTORS
      ensures MarkedAs(d, e, i, x)
    {
      RemovedMarks(d, name, e, x);
      assert Marks(d)[x] <==> Owned(d, Table(d), x);
    }
    SlotUpdate(d, e, i);
  }

  lemma RemoveEffect(d: Disk, name: seq<byte>, e: Disk)
    requires FsInv(d) && IsName(name) && RemoveStep(d, name, true, e)
    ensures FsInv(e) && Lookup(e, name) == None
    ensures forall other :: IsName(other) && Key(other) != Key(name) ==> Lookup(e, other) == Lookup(d, other)
  {
    RemoveKeepsInv(d, name, e);
    var i := FindIndex(Table(d), name, 0);
    FindIndexByKey(Table(d), name, 0);
    forall j
      ensures !KeyAt(Table(e), j, Key(name))
    {
      assert 0 <= j < NUM_DIR_ENTRIES && j != i && Table(d)[j].inUse ==> StoredKey(Table(d)[j].name) != Key(name);
    }
    LookupNone(e, name);
    forall other | IsName(other) && Key(other) != Key(name)
      ensures Lookup(e, other) == Lookup(d, other)
    {
      OtherNamesKept(d, e, i, other);
    }
  }

  /** Creating a file and removing it restores the bitmap, every name's file, and every sector outside
      the new file's own and the bitmap's and directory's. */
  lemma CreateThenRemove(d: Disk, name: seq<byte>, size: nat, e: Disk, f: Disk)
    requires FsInv(d) && IsName(name) && size <= MAX_FILE_SIZE && CreateStep(d, name, size, true, e)
    requires FsInv(e) && RemoveStep(e, name, true, f)
    ensures FsInv(f) && Marks(f) == Marks(d)
    ensures forall other :: IsName(other) ==> Lookup(f, other) == Lookup(d, other)
    ensures forall j :: 0 <= j < NUM_DIR_ENTRIES && j != FreeEntry(Table(d), 0) ==> Table(f)[j] == Table(d)[j]
    ensures !Table(f)[FreeEntry(Table(d), 0)].inUse
    ensures SameElsewhere(d, f, {FirstClear(Marks(d), 0)})
  {
    CreateEffect(d, name, size, e);
    RemoveEffect(e, name, f);
    var slot := FreeEntry(Table(d), 0);
    NamesCompareByKey(Table(d)[slot].name, name);
    LookupAt(e, slot, name);
    forall x | 0 <= x < NUM_SECTORS
      ensures Marks(f)[x] == Marks(d)[x]
    {
      NewFileSectors(d, name, size, e);
      RemovedMarks(e, name, f, x);
    }
    forall other | IsName(other)
      ensures Lookup(f, other) == Lookup(d, other)
    {
      if Key(other) == Key(name) {
        SameKeySameFile(d, other, name);
        SameKeySameFile(f, other, name);
      }
    }
  }

  /** Only the first nine characters of a name matter. */
  lemma SameKeySameFile(d: Disk, name: seq<byte>, other: seq<byte>)
    requires FsInv(d) && IsName(name) && IsName(other) && Key(name) == Key(other)
    ensures Lookup(d, name) == Lookup(d, other)
  {
    FindIndexByKey(Table(d), name, 0);
    var i := FindIndex(Table(d), name, 0);
    if i == -1 {
      LookupNone(d, other);
    } else {
      LookupAt(d, i, other);
    }
  }

  // ---------- Write ----------

  /** A write through an open file splices the data into that file and changes no other file. */
  lemma WriteEffectOnFiles(d: Disk, name: seq<byte>, position: nat, data: seq<byte>, e: Disk)
    requires FsInv(d) && IsName(name) && Lookup(d, name).Some? && WriteStep(d, name, position, data, e)
    ensures FsInv(e) && Marks(e) == Marks(d) && Table(e) == Table(d)
    ensures Lookup(e, name) == Some(Overwritten(Lookup(d, name).value, position, data))
    ensures forall other :: IsName(other) && Key(other) != Key(name) ==> Lookup(e, other) == Lookup(d, other)
  {
    var i := FindIndex(Table(d), name, 0);
    FindIndexByKey(Table(d), name, 0);
    assert EntryOk(d, Table(d)[i]);
    var h := DecodeHeader(d[Table(d)[i].sector]);
    var n := if position >= h.numBytes then 0 else Min(|data|, h.numBytes - position);
    SpliceOverwrites(Content(d, h), position, data, n);
    if n > 0 {
      WriteStaysInFile(d, e, i, position, data[..n]);
      LookupAt(e, i, name);
      forall other | IsName(other) && Key(other) != Key(name)
        ensures Lookup(e, other) == Lookup(d, other)
      {
        OtherNamesKept(d, e, i, other);
      }
    }
  }

  lemma WriteStaysInFile(d: Disk, e: Disk, i: nat, position: nat, data: seq<byte>)
    requires FsInv(d) && i < NUM_DIR_ENTRIES && Table(d)[i].inUse && EntryOk(d, Table(d)[i]) && data != []
    requires WriteEffect(d, e, DecodeHeader(d[Table(d)[i].sector]), position, data)
    ensures FsInv(e) && Marks(e) == Marks(d) && Table(e) == Table(d) && OthersKept(d, e, i)
    ensures e[Table(d)[i].sector] == d[Table(d)[i].sector]
  {
    var h := DecodeHeader(d[Table(d)[i].sector]);
    WrittenPart(h, position, data);
    assert forall x :: 0 <= x < NUM_SECTORS && x !in Sectors(h) ==> e[x] == d[x];
    SystemFilesKeep(d, e);
    forall j, x | 0 <= j < NUM_DIR_ENTRIES && j != i && 0 <= x < NUM_SECTORS && Owns(d, Table(d)[j], x)
      ensures e[x] == d[x]
    {
      assert !Owns(d, Table(d)[i], x);
    }
    assert forall x :: Owns(e, Table(e)[i], x) <==> Owns(d, Table(d)[i], x);
    forall x | 0 <= x < NUM_SECTORS
      ensures MarkedAs(d, e, i, x)
    {
      assert Marks(d)[x] <==> Owned(d, Table(d), x);
    }
    SlotUpdate(d, e, i);
  }
}
