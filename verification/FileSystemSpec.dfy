/** The file system as a whole (filesys/filesys.cc): what Create, Remove and writes do to the disk,
    which sectors each file owns, and the map from names to contents that users see. The bitmap
    and the directory are themselves files on the disk. */
module FileSystemSpec {
  import opened Bytes
  import opened Sequences
  import opened BitMaps
  import opened Options
  import opened FileLayout
  import opened OpenFiles

  const FREE_MAP_SECTOR := 0
  const DIRECTORY_SECTOR := 1
  const FREE_MAP_FILE_SIZE := NUM_SECTORS / 8
  const DIRECTORY_FILE_SIZE := DIR_ENTRY_SIZE * NUM_DIR_ENTRIES
  // Formatting puts the data of the bitmap in sector 2 and of the directory in sectors 3 and 4.
  const FIXED_SECTORS := 5

  // ---------- Allocation ----------

  /** FileHeader::Allocate's loop: `n` times the first clear sector. */
  function AllocFrom(bits: seq<bool>, n: nat): (r: (seq<bool>, seq<nat>))
    requires n <= CountClear(bits)
    ensures |r.0| == |bits| && |r.1| == n
    decreases n
  {
    if n == 0 then (bits, [])
    else
      FindSucceedsIffClear(bits);
      FirstClearIsLeast(bits, 0);
      var f := FirstClear(bits, 0);
      CountClearUpdate(bits, f, true);
      var rest := AllocFrom(bits[f := true], n - 1);
      (rest.0, [f] + rest.1)
  }

  /** The sectors allocated are distinct, were clear, and are what is newly marked. */
  lemma {:induction false} AllocFromIsFresh(bits: seq<bool>, n: nat)
    requires n <= CountClear(bits)
    ensures var (after, secs) := AllocFrom(bits, n);
            && Distinct(secs)
            && (forall s :: s in secs ==> s < |bits| && !bits[s])
            && (forall x :: 0 <= x < |bits| ==> (after[x] <==> bits[x] || x in secs))
    decreases n
  {
    if n > 0 {
      FindSucceedsIffClear(bits);
      FirstClearIsLeast(bits, 0);
      var f := FirstClear(bits, 0);
      CountClearUpdate(bits, f, true);
      AllocFromIsFresh(bits[f := true], n - 1);
      var rest := AllocFrom(bits[f := true], n - 1).1;
      assert f !in rest;
      var secs := [f] + rest;
      forall i, j | 0 <= i < j < |secs|
        ensures secs[i] != secs[j]
      {
        assert secs[j] == rest[j - 1] && rest[j - 1] in rest;
        assert i > 0 ==> secs[i] == rest[i - 1];
      }
    }
  }

  /** The sectors come in increasing order, and none that is passed over is clear. */
  ghost predicate FirstFit(bits: seq<bool>, secs: seq<nat>) {
    && (forall i, j :: 0 <= i < j < |secs| ==> secs[i] < secs[j])
    && (forall x, s :: 0 <= x < s && s in secs && x < |bits| && x !in secs ==> bits[x])
  }

  /** Allocation is first fit. */
  lemma {:induction false} AllocFromIsFirstFit(bits: seq<bool>, n: nat)
    requires n <= CountClear(bits)
    ensures FirstFit(bits, AllocFrom(bits, n).1)
    decreases n
  {
    if n > 0 {
      FindSucceedsIffClear(bits);
      FirstClearIsLeast(bits, 0);
      var f := FirstClear(bits, 0);
      CountClearUpdate(bits, f, true);
      AllocFromIsFirstFit(bits[f := true], n - 1);
      AllocFromIsFresh(bits[f := true], n - 1);
      var rest := AllocFrom(bits[f := true], n - 1).1;
      var secs := [f] + rest;
      forall i, j | 0 <= i < j < |secs|
        ensures secs[i] < secs[j]
      {
        assert secs[j] == rest[j - 1] && rest[j - 1] in rest;
        assert i > 0 ==> secs[i] == rest[i - 1];
      }
      forall x, s | 0 <= x < s && s in secs && x < |bits| && x !in secs
        ensures bits[x]
      {
        assert s == f || s in rest;
      }
    }
  }

  /** FileHeader::Deallocate's loop. */
  function ClearAll(bits: seq<bool>, secs: seq<nat>): (r: seq<bool>)
    requires forall i :: 0 <= i < |secs| ==> secs[i] < |bits|
    ensures |r| == |bits|
    decreases |secs|
  {
    if secs == [] then bits else ClearAll(bits[secs[0] := false], secs[1..])
  }

  lemma {:induction false} ClearAllClears(bits: seq<bool>, secs: seq<nat>)
    requires forall i :: 0 <= i < |secs| ==> secs[i] < |bits|
    ensures forall x :: 0 <= x < |bits| ==> (ClearAll(bits, secs)[x] <==> bits[x] && x !in secs)
    decreases |secs|
  {
    if secs != [] {
      ClearAllClears(bits[secs[0] := false], secs[1..]);
      assert secs == [secs[0]] + secs[1..];
    }
  }

  // ---------- The disk's own files ----------

  ghost predicate Formatted(d: Disk) {
    && IsDisk(d)
    && (var h := DecodeHeader(d[FREE_MAP_SECTOR]);
        h.numBytes == FREE_MAP_FILE_SIZE && h.numSectors == 1 && h.dataSectors[..1] == [2])
    && (var h := DecodeHeader(d[DIRECTORY_SECTOR]);
        h.numBytes == DIRECTORY_FILE_SIZE && h.numSectors == 2 && h.dataSectors[..2] == [3, 4])
  }

  lemma FormattedHeaders(d: Disk)
    requires Formatted(d)
    ensures HeaderOk(DecodeHeader(d[FREE_MAP_SECTOR])) && HeaderOk(DecodeHeader(d[DIRECTORY_SECTOR]))
  {
    var h := DecodeHeader(d[DIRECTORY_SECTOR]);
    assert h.dataSectors[0] == h.dataSectors[..2][0] && h.dataSectors[1] == h.dataSectors[..2][1];
    var g := DecodeHeader(d[FREE_MAP_SECTOR]);
    assert g.dataSectors[0] == g.dataSectors[..1][0];
  }

  /** Where the system's files are: the bitmap's header in sector 0 and its 128 bytes in sector 2, the
      directory's header in sector 1 and its 200 bytes in sectors 3 and 4. */
  lemma SystemFilesAt(d: Disk)
    requires Formatted(d)
    ensures var g := DecodeHeader(d[0]); g.numBytes == 128 && g.dataSectors[0] == 2
    ensures var h := DecodeHeader(d[1]); h.numBytes == 200 && h.dataSectors[0] == 3 && h.dataSectors[1] == 4
  {
    var h := DecodeHeader(d[1]);
    assert h.dataSectors[0] == h.dataSectors[..2][0] && h.dataSectors[1] == h.dataSectors[..2][1];
    var g := DecodeHeader(d[0]);
    assert g.dataSectors[0] == g.dataSectors[..1][0];
  }

  /** The on-disk bitmap. */
  ghost function Marks(d: Disk): (bits: seq<bool>)
    requires Formatted(d)
    ensures |bits| == NUM_SECTORS
  {
    FormattedHeaders(d);
    Bits(DecodeWords(Content(d, DecodeHeader(d[FREE_MAP_SECTOR]))), NUM_SECTORS)
  }

  /** The on-disk directory. */
  ghost function Table(d: Disk): (t: seq<DirEntry>)
    requires Formatted(d)
    ensures |t| == NUM_DIR_ENTRIES && TableShape(t)
  {
    FormattedHeaders(d);
    DecodeTable(Content(d, DecodeHeader(d[DIRECTORY_SECTOR])))
  }

  /** Nothing changed but the sectors `but` and the data of the bitmap and the directory. */
  ghost predicate SameElsewhere(d: Disk, e: Disk, but: set<int>)
    requires IsDisk(d) && IsDisk(e)
  {
    forall x :: 0 <= x < NUM_SECTORS && !(2 <= x < FIXED_SECTORS) && x !in but ==> e[x] == d[x]
  }

  // ---------- Who owns which sector ----------

  /** A directory entry's file: a header sector and its data sectors, none of them reserved. */
  ghost predicate EntryOk(d: Disk, e: DirEntry)
    requires IsDisk(d)
  {
    e.inUse ==>
      && FIXED_SECTORS <= e.sector < NUM_SECTORS && HeaderOk(DecodeHeader(d[e.sector]))
      && forall s :: s in Sectors(DecodeHeader(d[e.sector])) ==> FIXED_SECTORS <= s < NUM_SECTORS && s != e.sector
  }

  ghost predicate Owns(d: Disk, e: DirEntry, x: int)
    requires IsDisk(d) && EntryOk(d, e)
  {
    e.inUse && (x == e.sector || x in Sectors(DecodeHeader(d[e.sector])))
  }

  ghost predicate EntriesOk(d: Disk, t: seq<DirEntry>)
    requires IsDisk(d)
  {
    forall i :: 0 <= i < |t| ==> EntryOk(d, t[i])
  }

  /** No sector belongs to two files. */
  ghost predicate Disjoint(d: Disk, t: seq<DirEntry>)
    requires IsDisk(d) && EntriesOk(d, t)
  {
    forall i, j, x :: 0 <= i < |t| && 0 <= j < |t| && i != j && Owns(d, t[i], x) ==> !Owns(d, t[j], x)
  }

  ghost predicate KeysDistinct(t: seq<DirEntry>)
    requires TableShape(t)
  {
    forall i, j :: 0 <= i < |t| && 0 <= j < |t| && i != j && t[i].inUse && t[j].inUse ==>
      StoredKey(t[i].name) != StoredKey(t[j].name)
  }

  ghost predicate Owned(d: Disk, t: seq<DirEntry>, x: int)
    requires IsDisk(d) && EntriesOk(d, t)
  {
    x < FIXED_SECTORS || exists i :: 0 <= i < |t| && Owns(d, t[i], x)
  }

  /** The bitmap marks exactly the owned sectors. */
  ghost predicate MarksOwned(d: Disk, t: seq<DirEntry>, marks: seq<bool>)
    requires IsDisk(d) && EntriesOk(d, t) && |marks| == NUM_SECTORS
  {
    forall x :: 0 <= x < NUM_SECTORS ==> (marks[x] <==> Owned(d, t, x))
  }

  ghost predicate FsInv(d: Disk) {
    && Formatted(d) && EntriesOk(d, Table(d)) && Disjoint(d, Table(d)) && KeysDistinct(Table(d))
    && MarksOwned(d, Table(d), Marks(d))
  }

  // ---------- What users see ----------

  /** The file of this name, or none. */
  ghost function Lookup(d: Disk, name: seq<byte>): Option<seq<byte>>
    requires FsInv(d)
  {
    var i := FindIndex(Table(d), name, 0);
    if i == -1 then None
    else
      assert EntryOk(d, Table(d)[i]);
      Some(Content(d, DecodeHeader(d[Table(d)[i].sector])))
  }

  // ---------- Steps ----------

  /** When Create succeeds. */
  ghost predicate CanCreate(d: Disk, name: seq<byte>, size: nat)
    requires Formatted(d)
  {
    && FindIndex(Table(d), name, 0) == -1
    && FreeEntry(Table(d), 0) != -1
    && CountClear(Marks(d)) >= 1 + DivRoundUp(size, SECTOR_SIZE)
  }

  ghost predicate CreateStep(d: Disk, name: seq<byte>, size: nat, success: bool, e: Disk)
    requires Formatted(d)
  {
    && (success <==> CanCreate(d, name, size))
    && if success then
         var sector := FirstClear(Marks(d), 0);
         var slot := FreeEntry(Table(d), 0);
         && 0 <= sector && Formatted(e) && SameElsewhere(d, e, {sector})
         && NewHeader(Marks(d), sector, size, DecodeHeader(e[sector]), Marks(e))
         && Table(e) == Table(d)[slot := DirEntry(true, sector, StrNCpy(Table(d)[slot].name, name))]
       else e == d
  }

  /** The header and bitmap after allocating a header sector and `size` bytes of data. */
  ghost predicate NewHeader(marks: seq<bool>, sector: nat, size: nat, h: Header, after: seq<bool>)
    requires sector < |marks|
  {
    var n := DivRoundUp(size, SECTOR_SIZE);
    && h.numBytes == size && h.numSectors == n && n <= |h.dataSectors|
    && CountClear(marks[sector := true]) >= n
    && Sectors(h) == AllocFrom(marks[sector := true], n).1
    && after == AllocFrom(marks[sector := true], n).0
  }

  ghost predicate RemoveStep(d: Disk, name: seq<byte>, success: bool, e: Disk)
    requires FsInv(d)
  {
    var i := FindIndex(Table(d), name, 0);
    && (success <==> i != -1)
    && if success then
         assert EntryOk(d, Table(d)[i]);
         var sector := Table(d)[i].sector;
         && Formatted(e) && SameElsewhere(d, e, {})
         && Marks(e) == ClearAll(Marks(d), Sectors(DecodeHeader(d[sector])))[sector := false]
         && Table(e) == Table(d)[i := Table(d)[i].(inUse := false)]
       else e == d
  }

  /** Open by name, then WriteAt. */
  ghost predicate WriteStep(d: Disk, name: seq<byte>, position: nat, data: seq<byte>, e: Disk)
    requires FsInv(d)
  {
    var i := FindIndex(Table(d), name, 0);
    if i == -1 then e == d
    else
      assert EntryOk(d, Table(d)[i]);
      var h := DecodeHeader(d[Table(d)[i].sector]);
      WriteEffect(d, e, h, position, data[..if position >= h.numBytes then 0 else Min(|data|, h.numBytes - position)])
  }
}
