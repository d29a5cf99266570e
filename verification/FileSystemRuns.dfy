/** Runs of the file system from a freshly formatted disk: they behave as a map from name keys to
    contents with a count of free sectors. */
module FileSystemRuns {
  import opened Bytes
  import opened Sequences
  import opened BitMaps
  import opened Options
  import opened FileLayout
  import opened OpenFiles
  import opened FileSystemSpec
  import opened FileSystemSteps

  // ---------- What users see ----------

  datatype Files = Files(files: map<seq<byte>, seq<byte>>, free: nat)

  /** What formatting leaves. */
  const NEW_FILES := Files(map[], NUM_SECTORS - FIXED_SECTORS)

  datatype FsOp =
    | Create(name: seq<byte>, size: nat)
    | Remove(name: seq<byte>)
    | Write(name: seq<byte>, position: nat, data: seq<byte>)

  predicate OpOk(op: FsOp) {
    IsName(op.name) && (op.Create? ==> op.size <= MAX_FILE_SIZE)
  }

  /** Sectors that a file of `size` bytes takes up: its header and its data. */
  function Cost(size: nat): nat {
    1 + DivRoundUp(size, SECTOR_SIZE)
  }

  /** An operation on the map. The content of a new file is arbitrary. */
  ghost predicate FilesNext(s: Files, op: FsOp, ok: bool, r: Files) {
    var key := Key(op.name);
    match op
    case Create(_, size) =>
      && (ok <==> key !in s.files && |s.files| < NUM_DIR_ENTRIES && Cost(size) <= s.free)
      && if ok then
           && key in r.files && |r.files[key]| == size
           && r == Files(s.files[key := r.files[key]], s.free - Cost(size))
         else r == s
    case Remove(_) =>
      && (ok <==> key in s.files)
      && r == if ok then Files(s.files - {key}, s.free + Cost(|s.files[key]|)) else s
    case Write(_, position, data) =>
      && (ok <==> key in s.files)
      && r == if ok then Files(s.files[key := Overwritten(s.files[key], position, data)], s.free) else s
  }

  // ---------- What happens on the disk ----------

  ghost predicate FsNext(d: Disk, op: FsOp, ok: bool, e: Disk)
    requires FsInv(d)
  {
    match op
    case Create(name, size) => CreateStep(d, name, size, ok, e)
    case Remove(name) => RemoveStep(d, name, ok, e)
    case Write(name, position, data) => (ok <==> Lookup(d, name).Some?) && WriteStep(d, name, position, data, e)
  }

  /** The disk that formatting leaves: no files, only the fixed sectors marked. */
  ghost predicate EmptyFs(d: Disk) {
    && Formatted(d)
    && (forall i :: 0 <= i < NUM_DIR_ENTRIES ==> !Table(d)[i].inUse)
    && (forall x :: 0 <= x < NUM_SECTORS ==> (Marks(d)[x] <==> x < FIXED_SECTORS))
  }

  function InUse(t: seq<DirEntry>): seq<bool> {
    seq(|t|, i requires 0 <= i < |t| => t[i].inUse)
  }

  /** The disk holds these files: every name reads as the map says, and the free sectors and free
      directory entries are as many as the map leaves. */
  ghost predicate Shows(d: Disk, s: Files) {
    && FsInv(d)
    && (forall name :: IsName(name) ==>
          Lookup(d, name) == if Key(name) in s.files then Some(s.files[Key(name)]) else None)
    && CountClear(Marks(d)) == s.free
    && CountClear(InUse(Table(d))) + |s.files| == NUM_DIR_ENTRIES
  }

  // ---------- Counting ----------

  lemma {:induction false} AllocFromCount(bits: seq<bool>, n: nat)
    requires n <= CountClear(bits)
    ensures CountClear(AllocFrom(bits, n).0) == CountClear(bits) - n
    decreases n
  {
    if n > 0 {
      FindSucceedsIffClear(bits);
      FirstClearIsLeast(bits, 0);
      var f := FirstClear(bits, 0);
      CountClearUpdate(bits, f, true);
      AllocFromCount(bits[f := true], n - 1);
    }
  }

  lemma {:induction false} ClearAllCount(bits: seq<bool>, secs: seq<nat>)
    requires (forall i :: 0 <= i < |secs| ==> secs[i] < |bits| && bits[secs[i]]) && Distinct(secs)
    ensures CountClear(ClearAll(bits, secs)) == CountClear(bits) + |secs|
    decreases |secs|
  {
    if secs != [] {
      CountClearUpdate(bits, secs[0], false);
      ClearAllCount(bits[secs[0] := false], secs[1..]);
    }
  }

  lemma {:induction false} CountClearPrefix(bits: seq<bool>, k: nat)
    requires k <= |bits| && forall i :: 0 <= i < |bits| ==> (bits[i] <==> i < k)
    ensures CountClear(bits) == |bits| - k
  {
    if bits != [] {
      CountClearPrefix(bits[..|bits| - 1], if k == |bits| then k - 1 else k);
    }
  }

  lemma FreeEntryIffRoom(t: seq<DirEntry>)
    ensures FreeEntry(t, 0) == -1 <==> CountClear(InUse(t)) == 0
  {
    CountClearZero(InUse(t));
    if CountClear(InUse(t)) == 0 {
      assert forall i :: 0 <= i < |t| ==> InUse(t)[i] == t[i].inUse;
    }
    if FreeEntry(t, 0) == -1 {
      assert forall i :: 0 <= i < |t| ==> InUse(t)[i] == t[i].inUse;
    }
  }

  lemma EntryCount(t: seq<DirEntry>, i: nat, e: DirEntry)
    requires i < |t|
    ensures CountClear(InUse(t[i := e])) == CountClear(InUse(t)) - (if t[i].inUse then 0 else 1) + (if e.inUse then 0 else 1)
  {
    assert InUse(t[i := e]) == InUse(t)[i := e.inUse];
    CountClearUpdate(InUse(t), i, e.inUse);
  }

  // ---------- Each operation ----------

  /** Create succeeds exactly when the map has no such key, has room for one more, and leaves enough sectors. */
  lemma CanCreateIff(d: Disk, s: Files, name: seq<byte>, size: nat)
    requires Shows(d, s) && IsName(name)
    ensures CanCreate(d, name, size) <==>
              Key(name) !in s.files && |s.files| < NUM_DIR_ENTRIES && Cost(size) <= s.free
  {
    FreeEntryIffRoom(Table(d));
    assert FindIndex(Table(d), name, 0) == -1 <==> Lookup(d, name) == None;
  }

  lemma CreateCounts(d: Disk, name: seq<byte>, size: nat, e: Disk)
    requires FsInv(d) && CreateStep(d, name, size, true, e)
    ensures CountClear(Marks(e)) == CountClear(Marks(d)) - Cost(size)
    ensures CountClear(InUse(Table(e))) == CountClear(InUse(Table(d))) - 1
  {
    var sector, slot := FirstClear(Marks(d), 0), FreeEntry(Table(d), 0);
    FirstClearIsLeast(Marks(d), 0);
    CountClearUpdate(Marks(d), sector, true);
    AllocFromCount(Marks(d)[sector := true], DivRoundUp(size, SECTOR_SIZE));
    EntryCount(Table(d), slot, Table(e)[slot]);
  }

  lemma CreateShows(d: Disk, s: Files, name: seq<byte>, size: nat, e: Disk) returns (r: Files)
    requires Shows(d, s) && IsName(name) && size <= MAX_FILE_SIZE && CreateStep(d, name, size, true, e)
    ensures FilesNext(s, Create(name, size), true, r) && Shows(e, r)
  {
    CanCreateIff(d, s, name, size);
    CreateEffect(d, name, size, e);
    var key, c := Key(name), Lookup(e, name).value;
    r := Files(s.files[key := c], s.free - Cost(size));
    forall other | IsName(other)
      ensures Lookup(e, other) == if Key(other) in r.files then Some(r.files[Key(other)]) else None
    {
      if Key(other) == key {
        SameKeySameFile(e, other, name);
      }
    }
    CreateCounts(d, name, size, e);
    assert r.files.Keys == s.files.Keys + {key};
    assert |r.files| == |r.files.Keys| && |s.files| == |s.files.Keys|;
  }

  lemma RemoveCounts(d: Disk, name: seq<byte>, e: Disk)
    requires FsInv(d) && RemoveStep(d, name, true, e)
    ensures Lookup(d, name).Some?
    ensures CountClear(Marks(e)) == CountClear(Marks(d)) + Cost(|Lookup(d, name).value|)
    ensures CountClear(InUse(Table(e))) == CountClear(InUse(Table(d))) + 1
  {
    var i := FindIndex(Table(d), name, 0);
    RemovedSectorsAreMarked(d, i);
    var sector := Table(d)[i].sector;
    var secs := Sectors(DecodeHeader(d[sector]));
    ClearAllCount(Marks(d), secs);
    ClearAllClears(Marks(d), secs);
    CountClearUpdate(ClearAll(Marks(d), secs), sector, false);
    EntryCount(Table(d), i, Table(e)[i]);
  }

  lemma RemoveShows(d: Disk, s: Files, name: seq<byte>, e: Disk) returns (r: Files)
    requires Shows(d, s) && IsName(name) && RemoveStep(d, name, true, e)
    ensures FilesNext(s, Remove(name), true, r) && Shows(e, r)
  {
    RemoveEffect(d, name, e);
    var key := Key(name);
    assert Lookup(d, name).Some?;
    r := Files(s.files - {key}, s.free + Cost(|s.files[key]|));
    forall other | IsName(other)
      ensures Lookup(e, other) == if Key(other) in r.files then Some(r.files[Key(other)]) else None
    {
      if Key(other) == key {
        SameKeySameFile(e, other, name);
      }
    }
    RemoveCounts(d, name, e);
    assert r.files.Keys == s.files.Keys - {key};
    assert |r.files| == |r.files.Keys| && |s.files| == |s.files.Keys|;
  }

  lemma WriteShows(d: Disk, s: Files, name: seq<byte>, position: nat, data: seq<byte>, e: Disk) returns (r: Files)
    requires Shows(d, s) && IsName(name) && Lookup(d, name).Some? && WriteStep(d, name, position, data, e)
    ensures FilesNext(s, Write(name, position, data), true, r) && Shows(e, r)
  {
    WriteEffectOnFiles(d, name, position, data, e);
    var key := Key(name);
    r := Files(s.files[key := Overwritten(s.files[key], position, data)], s.free);
    forall other | IsName(other)
      ensures Lookup(e, other) == if Key(other) in r.files then Some(r.files[Key(other)]) else None
    {
      if Key(other) == key {
        SameKeySameFile(e, other, name);
      }
    }
    assert r.files.Keys == s.files.Keys;
    assert |r.files| == |r.files.Keys| && |s.files| == |s.files.Keys|;
  }

  lemma NextShows(d: Disk, s: Files, op: FsOp, ok: bool, e: Disk) returns (r: Files)
    requires Shows(d, s) && OpOk(op) && FsNext(d, op, ok, e)
    ensures FilesNext(s, op, ok, r) && Shows(e, r)
  {
    if !ok {
      if op.Create? {
        CanCreateIff(d, s, op.name, op.size);
      }
      return s;
    }
    match op {
      case Create(name, size) => r := CreateShows(d, s, name, size, e);
      case Remove(name) => r := RemoveShows(d, s, name, e);
      case Write(name, position, data) => r := WriteShows(d, s, name, position, data, e);
    }
  }

  // ---------- Runs ----------

  lemma EmptyShows(d: Disk)
    requires EmptyFs(d)
    ensures Shows(d, NEW_FILES)
  {
    assert FsInv(d);
    CountClearPrefix(Marks(d), FIXED_SECTORS);
    CountClearPrefix(InUse(Table(d)), 0);
    forall name | IsName(name)
      ensures Lookup(d, name) == None
    {
      LookupNone(d, name);
    }
  }

  /** A run: the disk after each operation, and whether it succeeded. Nothing is assumed about
      an operation on a disk that violates the invariant. */
  ghost predicate FsRun(ds: seq<Disk>, ops: seq<FsOp>, oks: seq<bool>) {
    && |ds| == |ops| + 1 == |oks| + 1 && EmptyFs(ds[0])
    && forall i :: 0 <= i < |ops| ==> OpOk(ops[i]) && (FsInv(ds[i]) ==> FsNext(ds[i], ops[i], oks[i], ds[i + 1]))
  }

  lemma RunStart(ds: seq<Disk>, ops: seq<FsOp>, oks: seq<bool>)
    requires FsRun(ds, ops, oks)
    ensures |ds| == |ops| + 1 == |oks| + 1 && Shows(ds[0], NEW_FILES)
  {
    EmptyShows(ds[0]);
  }

  lemma RunNextShows(ds: seq<Disk>, ops: seq<FsOp>, oks: seq<bool>, k: nat, s: Files) returns (r: Files)
    requires FsRun(ds, ops, oks) && |ds| == |ops| + 1 == |oks| + 1 && k < |ops| && Shows(ds[k], s)
    ensures FilesNext(s, ops[k], oks[k], r) && Shows(ds[k + 1], r)
  {
    r := NextShows(ds[k], s, ops[k], oks[k], ds[k + 1]);
  }

  /** After formatting and any sequence of operations, the disk keeps the invariant and shows the
      files that the same operations on the map give, with the same successes and failures. */
  lemma RunShowsFiles(ds: seq<Disk>, ops: seq<FsOp>, oks: seq<bool>) returns (ss: seq<Files>)
    requires FsRun(ds, ops, oks)
    ensures |ss| == |ds| == |ops| + 1 == |oks| + 1 && ss[0] == NEW_FILES
    ensures forall i :: 0 <= i < |ops| ==> FilesNext(ss[i], ops[i], oks[i], ss[i + 1])
    ensures forall i :: 0 <= i < |ds| ==> Shows(ds[i], ss[i])
  {
    hide *;
    RunStart(ds, ops, oks);
    ss := [NEW_FILES];
    for k := 0 to |ops|
      invariant |ss| == k + 1 && ss[0] == NEW_FILES
      invariant forall i :: 0 <= i < k ==> FilesNext(ss[i], ops[i], oks[i], ss[i + 1])
      invariant forall i :: 0 <= i <= k ==> Shows(ds[i], ss[i])
    {
      var r := RunNextShows(ds, ops, oks, k, ss[k]);
      ss := ss + [r];
    }
  }
}
