/** What the file system keeps on disk: file headers, directory entries, and the bytes of a file
    (filesys/filehdr.h, filesys/directory.h, machine/disk.h). */
module FileLayout {
  import opened Bytes
  import opened Sequences

  const SECTOR_SIZE := 128
  const NUM_SECTORS := 1024
  const NUM_DIRECT := 30
  const MAX_FILE_SIZE := NUM_DIRECT * SECTOR_SIZE
  const FILE_NAME_MAX_LEN := 9
  const NUM_DIR_ENTRIES := 10
  const DIR_ENTRY_SIZE := 20

  type Disk = seq<seq<byte>>

  ghost predicate IsDisk(d: Disk) {
    |d| == NUM_SECTORS && forall i :: 0 <= i < |d| ==> |d[i]| == SECTOR_SIZE
  }

  // ---------- File headers ----------

  datatype Header = Header(numBytes: word, numSectors: word, dataSectors: seq<word>)

  function EncodeHeader(h: Header): (bs: seq<byte>)
    requires |h.dataSectors| == NUM_DIRECT
    ensures |bs| == SECTOR_SIZE
  {
    EncodeWords([h.numBytes, h.numSectors] + h.dataSectors)
  }

  function DecodeHeader(bs: seq<byte>): (h: Header)
    requires |bs| == SECTOR_SIZE
    ensures |h.dataSectors| == NUM_DIRECT
  {
    var ws := DecodeWords(bs);
    Header(ws[0], ws[1], ws[2..])
  }

  lemma HeaderRoundTrip(h: Header)
    requires |h.dataSectors| == NUM_DIRECT
    ensures DecodeHeader(EncodeHeader(h)) == h
  {
    WordsRoundTrip([h.numBytes, h.numSectors] + h.dataSectors);
  }

  /** On disk a header is its length in bytes, its length in sectors and its sector numbers, as words. */
  lemma HeaderImage(h: Header, i: nat)
    requires |h.dataSectors| == NUM_DIRECT && i < NUM_DIRECT
    ensures var bs := EncodeHeader(h);
            && bs[0..4] == WordBytes(h.numBytes) && bs[4..8] == WordBytes(h.numSectors)
            && bs[8 + 4 * i..12 + 4 * i] == WordBytes(h.dataSectors[i])
  {
    var ws := [h.numBytes, h.numSectors] + h.dataSectors;
    WordsImage(ws, 0);
    WordsImage(ws, 1);
    WordsImage(ws, i + 2);
  }

  /** The sectors that hold the file's data. */
  function Sectors(h: Header): (secs: seq<word>)
    requires h.numSectors <= |h.dataSectors|
    ensures |secs| == h.numSectors
  {
    h.dataSectors[..h.numSectors]
  }

  ghost predicate HeaderOk(h: Header) {
    && |h.dataSectors| == NUM_DIRECT && h.numSectors <= NUM_DIRECT
    && h.numSectors == DivRoundUp(h.numBytes, SECTOR_SIZE)
    && (forall i :: 0 <= i < h.numSectors ==> h.dataSectors[i] < NUM_SECTORS)
    && Distinct(Sectors(h))
  }

  lemma ByteInSector(h: Header, k: nat)
    requires HeaderOk(h) && k < h.numBytes
    ensures k / SECTOR_SIZE < h.numSectors
  {
  }

  /** The bytes of a file. */
  ghost function Content(d: Disk, h: Header): (c: seq<byte>)
    requires IsDisk(d) && HeaderOk(h)
    ensures |c| == h.numBytes
  {
    seq(h.numBytes, k requires 0 <= k < h.numBytes => ByteInSector(h, k); d[h.dataSectors[k / SECTOR_SIZE]][k % SECTOR_SIZE])
  }

  /** A file's bytes depend only on its own data sectors. */
  lemma ContentFrame(d: Disk, e: Disk, h: Header)
    requires IsDisk(d) && IsDisk(e) && HeaderOk(h)
    requires forall i :: 0 <= i < h.numSectors ==> e[h.dataSectors[i]] == d[h.dataSectors[i]]
    ensures Content(e, h) == Content(d, h)
  {
  }

  // ---------- Names ----------

  /** A C string: the bytes before its terminating zero. */
  predicate IsName(name: seq<byte>) {
    0 !in name
  }

  /** The part of a name that the directory keeps and compares. */
  function Key(name: seq<byte>): (key: seq<byte>)
    ensures |key| <= FILE_NAME_MAX_LEN
  {
    if |name| <= FILE_NAME_MAX_LEN then name else name[..FILE_NAME_MAX_LEN]
  }

  /** The character at `i` of a C string, the terminator included. */
  function CharAt(name: seq<byte>, i: nat): byte {
    if i < |name| then name[i] else 0
  }

  /** `strncmp(field, name, FileNameMaxLen) == 0` from position `i` on. */
  predicate StrNCmpEqual(field: seq<byte>, name: seq<byte>, i: nat)
    requires |field| == FILE_NAME_MAX_LEN + 1 && i <= FILE_NAME_MAX_LEN
    decreases FILE_NAME_MAX_LEN - i
  {
    i == FILE_NAME_MAX_LEN || (field[i] == CharAt(name, i) && (field[i] == 0 || StrNCmpEqual(field, name, i + 1)))
  }

  /** `strncpy(field, name, FileNameMaxLen)`: padded with zeros; the last byte is not written. */
  function StrNCpy(field: seq<byte>, name: seq<byte>): (r: seq<byte>)
    requires |field| == FILE_NAME_MAX_LEN + 1
    ensures |r| == FILE_NAME_MAX_LEN + 1 && r[FILE_NAME_MAX_LEN] == field[FILE_NAME_MAX_LEN]
    ensures forall i :: 0 <= i < FILE_NAME_MAX_LEN ==> r[i] == if i < |name| then name[i] else 0
  {
    seq(FILE_NAME_MAX_LEN, i requires 0 <= i => CharAt(name, i)) + field[FILE_NAME_MAX_LEN..]
  }

  /** The key held in a name field, read from position `i` on. */
  function KeyFrom(field: seq<byte>, i: nat): (key: seq<byte>)
    requires |field| == FILE_NAME_MAX_LEN + 1 && i <= FILE_NAME_MAX_LEN
    ensures |key| <= FILE_NAME_MAX_LEN - i
    decreases FILE_NAME_MAX_LEN - i
  {
    if i == FILE_NAME_MAX_LEN || field[i] == 0 then [] else [field[i]] + KeyFrom(field, i + 1)
  }

  function StoredKey(field: seq<byte>): seq<byte>
    requires |field| == FILE_NAME_MAX_LEN + 1
  {
    KeyFrom(field, 0)
  }

  /** What is left of a name's key from position `i` on. */
  function KeyTail(name: seq<byte>, i: nat): seq<byte>
    requires i <= FILE_NAME_MAX_LEN
  {
    if i >= |Key(name)| then [] else Key(name)[i..]
  }

  lemma SameConsIffSameParts(a: byte, s: seq<byte>, b: byte, t: seq<byte>)
    ensures [a] + s == [b] + t <==> a == b && s == t
  {
    assert ([a] + s)[1..] == s && ([b] + t)[1..] == t;
    assert ([a] + s)[0] == a && ([b] + t)[0] == b;
  }

  lemma {:induction false} StrNCmpIsKeyEquality(field: seq<byte>, name: seq<byte>, i: nat)
    requires |field| == FILE_NAME_MAX_LEN + 1 && i <= FILE_NAME_MAX_LEN && IsName(name)
    ensures StrNCmpEqual(field, name, i) <==> KeyFrom(field, i) == KeyTail(name, i)
    decreases FILE_NAME_MAX_LEN - i
  {
    if i < FILE_NAME_MAX_LEN {
      StrNCmpIsKeyEquality(field, name, i + 1);
      if i < |name| {
        assert name[i] in name;
        assert i < |Key(name)| && Key(name)[i] == name[i];
        assert Key(name)[i..] == [name[i]] + Key(name)[i + 1..];
        assert KeyTail(name, i) == [name[i]] + KeyTail(name, i + 1);
        SameConsIffSameParts(field[i], KeyFrom(field, i + 1), name[i], KeyTail(name, i + 1));
      }
    }
  }

  lemma {:induction false} CopiedKeyFrom(field: seq<byte>, name: seq<byte>, i: nat)
    requires |field| == FILE_NAME_MAX_LEN + 1 && i <= FILE_NAME_MAX_LEN && IsName(name)
    ensures KeyFrom(StrNCpy(field, name), i) == KeyTail(name, i)
    decreases FILE_NAME_MAX_LEN - i
  {
    if i < FILE_NAME_MAX_LEN {
      CopiedKeyFrom(field, name, i + 1);
      if i < |name| {
        assert name[i] in name;
        assert i < |Key(name)| && Key(name)[i] == name[i];
        assert Key(name)[i..] == [name[i]] + Key(name)[i + 1..];
        assert KeyTail(name, i) == [name[i]] + KeyTail(name, i + 1);
      }
    }
  }

  /** strncmp against a stored name compares nine-character prefixes, and strncpy stores one. */
  lemma NamesCompareByKey(field: seq<byte>, name: seq<byte>)
    requires |field| == FILE_NAME_MAX_LEN + 1 && IsName(name)
    ensures StrNCmpEqual(field, name, 0) <==> StoredKey(field) == Key(name)
    ensures StoredKey(StrNCpy(field, name)) == Key(name)
  {
    StrNCmpIsKeyEquality(field, name, 0);
    CopiedKeyFrom(field, name, 0);
  }

  // ---------- Directories ----------

  datatype DirEntry = DirEntry(inUse: bool, sector: word, name: seq<byte>)

  predicate EntryShape(e: DirEntry) {
    |e.name| == FILE_NAME_MAX_LEN + 1
  }

  predicate TableShape(t: seq<DirEntry>) {
    forall i :: 0 <= i < |t| ==> EntryShape(t[i])
  }

  /** The C layout of an entry, padding as zeros. */
  function EncodeEntry(e: DirEntry): (bs: seq<byte>)
    requires EntryShape(e)
    ensures |bs| == DIR_ENTRY_SIZE
  {
    [if e.inUse then 1 else 0, 0, 0, 0] + WordBytes(e.sector) + e.name + [0, 0]
  }

  function DecodeEntry(bs: seq<byte>): (e: DirEntry)
    requires |bs| == DIR_ENTRY_SIZE
    ensures EntryShape(e)
  {
    DirEntry(bs[0] != 0, BytesWord(bs[4..8]), bs[8..18])
  }

  function EncodeTable(t: seq<DirEntry>): (bs: seq<byte>)
    requires TableShape(t)
    ensures |bs| == DIR_ENTRY_SIZE * |t|
  {
    if t == [] then [] else EncodeEntry(t[0]) + EncodeTable(t[1..])
  }

  function DecodeTable(bs: seq<byte>): (t: seq<DirEntry>)
    requires |bs| % DIR_ENTRY_SIZE == 0
    ensures DIR_ENTRY_SIZE * |t| == |bs| && TableShape(t)
  {
    if bs == [] then [] else [DecodeEntry(bs[..DIR_ENTRY_SIZE])] + DecodeTable(bs[DIR_ENTRY_SIZE..])
  }

  /** On disk a directory is its entries, 20 bytes each: the flag, the sector number at 4, and the name
      at 8. */
  lemma {:induction false} TableImage(t: seq<DirEntry>, i: nat)
    requires TableShape(t) && i < |t|
    ensures var bs := EncodeTable(t)[20 * i..20 * i + 20];
            && (bs[0] == if t[i].inUse then 1 else 0) && bs[4..8] == WordBytes(t[i].sector) && bs[8..18] == t[i].name
  {
    if i > 0 {
      TableImage(t[1..], i - 1);
      assert EncodeTable(t)[20 * i..20 * i + 20] == EncodeTable(t[1..])[20 * (i - 1)..20 * (i - 1) + 20];
    } else {
      assert EncodeTable(t)[0..20] == EncodeEntry(t[0]);
    }
  }

  lemma {:induction false} TableRoundTrip(t: seq<DirEntry>)
    requires TableShape(t)
    ensures DecodeTable(EncodeTable(t)) == t
  {
    if t != [] {
      var bs := EncodeTable(t);
      assert bs[..DIR_ENTRY_SIZE] == EncodeEntry(t[0]) && bs[DIR_ENTRY_SIZE..] == EncodeTable(t[1..]);
      EntryRoundTrip(t[0]);
      TableRoundTrip(t[1..]);
    }
  }

  lemma EntryRoundTrip(e: DirEntry)
    requires EntryShape(e)
    ensures DecodeEntry(EncodeEntry(e)) == e
  {
    WordRoundTrip(e.sector);
    var bs := EncodeEntry(e);
    assert bs[4..8] == WordBytes(e.sector) && bs[8..18] == e.name;
  }

  /** Directory::FindIndex: the first in-use entry whose name matches, or -1. */
  function FindIndex(t: seq<DirEntry>, name: seq<byte>, i: nat): (r: int)
    requires TableShape(t) && i <= |t|
    ensures r == -1 || (i <= r < |t| && t[r].inUse && StrNCmpEqual(t[r].name, name, 0))
    ensures forall j :: i <= j < |t| && (r == -1 || j < r) ==> !(t[j].inUse && StrNCmpEqual(t[j].name, name, 0))
    decreases |t| - i
  {
    if i == |t| then -1
    else if t[i].inUse && StrNCmpEqual(t[i].name, name, 0) then i
    else FindIndex(t, name, i + 1)
  }

  /** The first entry not in use, or -1. */
  function FreeEntry(t: seq<DirEntry>, i: nat): (r: int)
    requires i <= |t|
    ensures r == -1 || (i <= r < |t| && !t[r].inUse)
    ensures forall j :: i <= j < |t| && (r == -1 || j < r) ==> t[j].inUse
    decreases |t| - i
  {
    if i == |t| then -1 else if !t[i].inUse then i else FreeEntry(t, i + 1)
  }

  ghost predicate KeyAt(t: seq<DirEntry>, i: int, key: seq<byte>)
    requires TableShape(t)
  {
    0 <= i < |t| && t[i].inUse && StoredKey(t[i].name) == key
  }

  lemma {:induction false} FindIndexByKey(t: seq<DirEntry>, name: seq<byte>, i: nat)
    requires TableShape(t) && i <= |t| && IsName(name)
    ensures FindIndex(t, name, i) != -1 ==> KeyAt(t, FindIndex(t, name, i), Key(name))
    ensures FindIndex(t, name, i) == -1 ==> forall j :: i <= j < |t| ==> !KeyAt(t, j, Key(name))
    decreases |t| - i
  {
    if i < |t| {
      NamesCompareByKey(t[i].name, name);
      FindIndexByKey(t, name, i + 1);
    }
  }
}
