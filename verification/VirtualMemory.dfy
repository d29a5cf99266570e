/** Demand paging as a state machine over values: a software-managed TLB over an inverted page
    table over per-process disk locations (machine/translate.cc, userprog/exception.cc,
    userprog/addrspace.cc). One address space; its threads may fork and switch. */
module VirtualMemory {
  import opened Bytes
  import opened BitMaps
  import opened Options

  const PAGE_SIZE := 128
  const NUM_PHYS_PAGES := 32
  const MEMORY_SIZE := NUM_PHYS_PAGES * PAGE_SIZE
  const TLB_SIZE := 4
  const SWAP_SLOTS := 32000
  const NOFF_HEADER_SIZE := 40
  const STACK_PAGES := 8

  datatype TlbEntry = TlbEntry(virtualPage: int, physicalPage: int, valid: bool, readOnly: bool, use: bool, dirty: bool)

  datatype IptEntry = IptEntry(virtualPage: int, physicalPage: int, valid: bool, readOnly: bool, use: bool, dirty: bool,
                               spaceOwner: int)

  datatype DiskLocation = SWAP | EXECUTABLE | NEITHER

  datatype PageEntry = PageEntry(virtualPage: int, physicalPage: int, valid: bool, byteOffset: int,
                                 diskLocation: DiskLocation)

  datatype ExceptionType = PageFaultException | ReadOnlyException | BusErrorException | AddressErrorException

  /** Everything the paging code reads or writes. `fifo` is the replacement policy. */
  datatype Vm = Vm(
    tlb: seq<TlbEntry>, ipt: seq<IptEntry>, memory: seq<byte>, pageTable: seq<PageEntry>,
    frameMap: seq<bool>, swapMap: seq<bool>, swapfile: seq<byte>, executable: seq<byte>,
    queue: seq<nat>, tlbCounter: int, fifo: bool, processId: int)

  ghost predicate Shape(s: Vm) {
    && |s.tlb| == TLB_SIZE && |s.ipt| == NUM_PHYS_PAGES && |s.memory| == MEMORY_SIZE
    && |s.frameMap| == NUM_PHYS_PAGES && |s.swapMap| == SWAP_SLOTS && s.tlbCounter >= -1
  }

  // ---------- Frames and files ----------

  function Frame(memory: seq<byte>, f: nat): (page: seq<byte>)
    requires |memory| == MEMORY_SIZE && f < NUM_PHYS_PAGES
    ensures |page| == PAGE_SIZE
  {
    memory[PAGE_SIZE * f..PAGE_SIZE * f + PAGE_SIZE]
  }

  function SetFrame(memory: seq<byte>, f: nat, page: seq<byte>): (r: seq<byte>)
    requires |memory| == MEMORY_SIZE && f < NUM_PHYS_PAGES && |page| == PAGE_SIZE
    ensures |r| == MEMORY_SIZE
  {
    memory[..PAGE_SIZE * f] + page + memory[PAGE_SIZE * f + PAGE_SIZE..]
  }

  lemma FrameOfSetFrame(memory: seq<byte>, f: nat, page: seq<byte>, g: nat)
    requires |memory| == MEMORY_SIZE && f < NUM_PHYS_PAGES && |page| == PAGE_SIZE && g < NUM_PHYS_PAGES
    ensures Frame(SetFrame(memory, f, page), g) == if g == f then page else Frame(memory, g)
  {
    var r := SetFrame(memory, f, page);
    forall k | 0 <= k < PAGE_SIZE
      ensures r[PAGE_SIZE * g + k] == if g == f then page[k] else memory[PAGE_SIZE * g + k]
    {
    }
  }

  /** What a read of one page at `offset` brings in: short at end of file. */
  function ReadFile(file: seq<byte>, offset: int): (r: seq<byte>)
    ensures |r| <= PAGE_SIZE
  {
    if offset < 0 || offset >= |file| then []
    else if offset + PAGE_SIZE > |file| then file[offset..]
    else file[offset..offset + PAGE_SIZE]
  }

  /** A write at `offset` overwrites, and extends the file, with zeros for any gap. */
  function WriteFile(file: seq<byte>, offset: nat, page: seq<byte>): (r: seq<byte>)
    ensures |r| >= offset + |page|
  {
    var padded := if |file| < offset then file + seq(offset - |file|, _ => 0) else file;
    padded[..offset] + page + if offset + |page| <= |padded| then padded[offset + |page|..] else []
  }

  lemma WriteFileAt(file: seq<byte>, offset: nat, page: seq<byte>)
    ensures WriteFile(file, offset, page)[offset..offset + |page|] == page
    ensures |WriteFile(file, offset, page)| >= |file|
    ensures forall k :: 0 <= k < |file| && !(offset <= k < offset + |page|) ==> WriteFile(file, offset, page)[k] == file[k]
  {
  }

  // ---------- Machine::Translate, ReadMem, WriteMem ----------

  /** The first valid TLB entry for a page, or -1. */
  function FindTlb(tlb: seq<TlbEntry>, vpn: int, i: nat): (r: int)
    requires i <= |tlb|
    ensures r == -1 || (i <= r < |tlb| && tlb[r].valid && tlb[r].virtualPage == vpn)
    ensures r == -1 ==> forall j :: i <= j < |tlb| ==> !(tlb[j].valid && tlb[j].virtualPage == vpn)
    decreases |tlb| - i
  {
    if i == |tlb| then -1
    else if tlb[i].valid && tlb[i].virtualPage == vpn then i
    else FindTlb(tlb, vpn, i + 1)
  }

  datatype Translation = Translated(physAddr: nat, after: Vm) | Raised(which: ExceptionType)

  function Translate(s: Vm, addr: nat, size: nat, writing: bool): Translation {
    if (size == 4 && addr % 4 != 0) || (size == 2 && addr % 2 != 0) then Raised(AddressErrorException)
    else
      var i := FindTlb(s.tlb, addr / PAGE_SIZE, 0);
      if i == -1 then Raised(PageFaultException)
      else
        var entry := s.tlb[i];
        if entry.readOnly && writing then Raised(ReadOnlyException)
        else if entry.physicalPage < 0 || entry.physicalPage >= NUM_PHYS_PAGES then Raised(BusErrorException)
        else Translated(PAGE_SIZE * entry.physicalPage + addr % PAGE_SIZE,
                        s.(tlb := s.tlb[i := entry.(use := true, dirty := entry.dirty || writing)]))
  }

  /** The register value that ReadMem makes of the bytes: a byte is a signed char, a halfword is
      unsigned, a word is a signed int. */
  function LoadValue(bytes: seq<byte>): (v: int)
    requires |bytes| in {1, 2, 4}
  {
    if |bytes| == 1 then (if bytes[0] < 128 then bytes[0] as int else bytes[0] as int - 256)
    else if |bytes| == 2 then bytes[0] as int + 256 * bytes[1] as int
    else var w := BytesWord(bytes); if w < 0x8000_0000 then w as int else w as int - WORD_LIMIT
  }

  /** The bytes that WriteMem puts in memory for a register value. */
  function StoreImage(size: nat, v: int): (bytes: seq<byte>)
    requires size in {1, 2, 4}
    ensures |bytes| == size
  {
    if size == 1 then [v % 256]
    else if size == 2 then [v % 256, v / 256 % 256]
    else WordBytes(v % WORD_LIMIT)
  }

  /** A word store then a word load gives the value back. */
  lemma WordValueRoundTrip(v: int)
    requires -0x8000_0000 <= v < 0x8000_0000
    ensures LoadValue(StoreImage(4, v)) == v
  {
    WordRoundTrip(v % WORD_LIMIT);
  }

  /** Narrower ones give the low part, sign-extended from a byte and zero-extended from a halfword. */
  lemma NarrowValueRoundTrip(v: int)
    ensures LoadValue(StoreImage(2, v)) == v % 0x1_0000
    ensures -128 <= LoadValue(StoreImage(1, v)) < 128 && LoadValue(StoreImage(1, v)) % 256 == v % 256
  {
    LowBytes(v);
  }

  /** The low part of a stored word comes first in memory. */
  lemma LowPartFirst(v: int)
    ensures LoadValue(StoreImage(4, v)[..1]) % 0x100 == v % 0x100
    ensures LoadValue(StoreImage(4, v)[..2]) == v % 0x1_0000
    ensures StoreImage(4, v)[..2] == StoreImage(2, v) && StoreImage(2, v)[..1] == StoreImage(1, v)
  {
    LowBytes(v);
    LowWord(v);
  }

  lemma LowWord(v: int)
    ensures v % WORD_LIMIT % 256 == v % 256 && v % WORD_LIMIT / 256 % 256 == v / 256 % 256
  {
    var q, w := v / WORD_LIMIT, v % WORD_LIMIT;
    var a, b := v / 256, v / 256 / 256;
    assert v == 256 * a + v % 256 && a == 256 * b + a % 256;
    assert w == 256 * (a - 0x100_0000 * q) + v % 256;
    assert w / 256 == a - 0x100_0000 * q;
    assert w / 256 == 256 * (b - 0x1_0000 * q) + a % 256;
  }

  lemma LowBytes(v: int)
    ensures v % 256 + 256 * (v / 256 % 256) == v % 0x1_0000
  {
    var q, r := v / 256, v % 256;
    var p, t := q / 256, q % 256;
    assert v == 0x1_0000 * p + (256 * t + r);
  }

  function StoreBytes(memory: seq<byte>, at: nat, data: seq<byte>): (r: seq<byte>)
    requires at + |data| <= |memory|
    ensures |r| == |memory|
  {
    memory[..at] + data + memory[at + |data|..]
  }

  // ---------- The page-fault handler ----------

  /** The first frame that the inverted page table says holds the page, or -1. */
  function FindFrame(ipt: seq<IptEntry>, vpn: int, owner: int, i: nat): (r: int)
    requires i <= |ipt|
    ensures r == -1 || (i <= r < |ipt| && ipt[r].valid && ipt[r].virtualPage == vpn && ipt[r].spaceOwner == owner)
    ensures r == -1 ==> forall j :: i <= j < |ipt| ==> !(ipt[j].valid && ipt[j].virtualPage == vpn && ipt[j].spaceOwner == owner)
    decreases |ipt| - i
  {
    if i == |ipt| then -1
    else if ipt[i].virtualPage == vpn && ipt[i].spaceOwner == owner && ipt[i].valid then i
    else FindFrame(ipt, vpn, owner, i + 1)
  }

  predicate Matches(e: TlbEntry, page: int) {
    e.virtualPage == page && e.valid
  }

  /** Evicting a page drops its TLB entries and keeps their dirty bits. */
  function DropPage(tlb: seq<TlbEntry>, page: int): (r: seq<TlbEntry>)
    ensures |r| == |tlb|
  {
    seq(|tlb|, i requires 0 <= i < |tlb| => if Matches(tlb[i], page) then tlb[i].(valid := false) else tlb[i])
  }

  predicate DirtyInTlb(tlb: seq<TlbEntry>, page: int) {
    exists i :: 0 <= i < |tlb| && Matches(tlb[i], page) && tlb[i].dirty
  }

  ghost predicate HoldsPage(s: Vm, v: nat) {
    Shape(s) && v < NUM_PHYS_PAGES && 0 <= s.ipt[v].virtualPage < |s.pageTable|
  }

  /** Whether evicting frame `v` writes it to the swap file. */
  ghost predicate MustSwap(s: Vm, v: nat)
    requires HoldsPage(s, v)
  {
    s.ipt[v].dirty || DirtyInTlb(s.tlb, s.ipt[v].virtualPage)
  }

  /** handleMemoryFull, for victim frame `v`. */
  ghost function Evict(s: Vm, v: nat): (r: Vm)
    requires HoldsPage(s, v)
    requires MustSwap(s, v) ==> FirstClear(s.swapMap, 0) != -1
    ensures Shape(r)
  {
    var page := s.ipt[v].virtualPage;
    var s1 := s.(tlb := DropPage(s.tlb, page));
    var entry := s.pageTable[page];
    if MustSwap(s, v) then
      var slot := FirstClear(s.swapMap, 0);
      s1.(ipt := s.ipt[v := s.ipt[v].(dirty := true)],
          swapMap := s.swapMap[slot := true],
          swapfile := WriteFile(s.swapfile, PAGE_SIZE * slot, Frame(s.memory, v)),
          pageTable := s.pageTable[page := entry.(diskLocation := SWAP, byteOffset := PAGE_SIZE * slot, physicalPage := -1)])
    else
      s1.(pageTable := s.pageTable[page := entry.(physicalPage := -1)])
  }

  /** The bytes a frame holds after the page is brought in: a short read leaves the old tail,
      and a page with no disk location leaves the frame as it is. */
  function LoadedFrame(s: Vm, vpn: nat, f: nat): (page: seq<byte>)
    requires |s.memory| == MEMORY_SIZE && f < NUM_PHYS_PAGES && vpn < |s.pageTable|
    ensures |page| == PAGE_SIZE
  {
    var entry := s.pageTable[vpn];
    var was := Frame(s.memory, f);
    match entry.diskLocation
    case EXECUTABLE => ReadFile(s.executable, entry.byteOffset) + was[|ReadFile(s.executable, entry.byteOffset)|..]
    case SWAP => ReadFile(s.swapfile, entry.byteOffset) + was[|ReadFile(s.swapfile, entry.byteOffset)|..]
    case NEITHER => was
  }

  /** The rest of handleIPTMiss once a frame is at hand. */
  function LoadPage(s: Vm, vpn: nat, f: nat): (r: Vm)
    requires |s.memory| == MEMORY_SIZE && |s.ipt| == NUM_PHYS_PAGES && f < NUM_PHYS_PAGES && vpn < |s.pageTable|
  {
    s.(memory := SetFrame(s.memory, f, LoadedFrame(s, vpn, f)),
       queue := if s.fifo then s.queue + [f] else s.queue,
       ipt := s.ipt[f := s.ipt[f].(virtualPage := vpn, physicalPage := f, valid := true, spaceOwner := s.processId)],
       pageTable := s.pageTable[vpn := s.pageTable[vpn].(physicalPage := f, virtualPage := vpn, valid := true)])
  }

  /** The frame handleMemoryFull picks: the oldest loaded, or `random` (rand() % NumPhysPages). */
  function Victim(s: Vm, random: nat): nat {
    if s.fifo && s.queue != [] then s.queue[0] else if s.fifo then 0 else random
  }

  ghost predicate CanFault(s: Vm, vpn: int, random: nat) {
    && Shape(s) && 0 <= vpn < |s.pageTable| && random < NUM_PHYS_PAGES
    && (FindFrame(s.ipt, vpn, s.processId, 0) == -1 && FirstClear(s.frameMap, 0) == -1 ==>
          && HoldsPage(s, Victim(s, random))
          && (MustSwap(s, Victim(s, random)) ==> FirstClear(s.swapMap, 0) != -1))
  }

  /** handleIPTMiss: the frame used and the state with the page in it. */
  ghost function Miss(s: Vm, vpn: int, random: nat): (r: (nat, Vm))
    requires CanFault(s, vpn, random) && FindFrame(s.ipt, vpn, s.processId, 0) == -1
    ensures r.0 < NUM_PHYS_PAGES && Shape(r.1)
  {
    var free := FirstClear(s.frameMap, 0);
    if free != -1 then
      (free, LoadPage(s.(frameMap := s.frameMap[free := true]), vpn, free))
    else
      var v := Victim(s, random);
      var s1 := s.(queue := if s.fifo && s.queue != [] then s.queue[1..] else s.queue);
      (v, LoadPage(Evict(s1, v), vpn, v))
  }

  /** Installing frame `f` in TLB slot `k`, after saving the displaced entry's dirty bit. */
  function LoadTlb(s: Vm, f: nat, k: nat): (r: Vm)
    requires |s.ipt| == NUM_PHYS_PAGES && f < NUM_PHYS_PAGES && k < |s.tlb|
    requires s.tlb[k].valid ==> 0 <= s.tlb[k].physicalPage < NUM_PHYS_PAGES
  {
    var gone := s.tlb[k];
    var ipt := if gone.valid then s.ipt[gone.physicalPage := s.ipt[gone.physicalPage].(dirty := gone.dirty)] else s.ipt;
    s.(ipt := ipt,
       tlb := s.tlb[k := TlbEntry(ipt[f].virtualPage, ipt[f].physicalPage, ipt[f].valid, ipt[f].readOnly, ipt[f].use,
                                  ipt[f].dirty)])
  }

  /** The state HandlePageFault reaches just before it touches the TLB, and the frame. */
  ghost function Resident(s: Vm, vpn: int, random: nat): (r: (nat, Vm))
    requires CanFault(s, vpn, random)
    ensures r.0 < NUM_PHYS_PAGES && Shape(r.1)
  {
    var s1 := s.(tlbCounter := s.tlbCounter + 1);
    var f := FindFrame(s.ipt, vpn, s.processId, 0);
    if f != -1 then (f, s1) else Miss(s1, vpn, random)
  }

  ghost predicate TlbInRange(s: Vm) {
    forall i :: 0 <= i < |s.tlb| && s.tlb[i].valid ==> 0 <= s.tlb[i].physicalPage < NUM_PHYS_PAGES
  }

  /** HandlePageFault. */
  ghost function Fault(s: Vm, vpn: int, random: nat): (r: Vm)
    requires CanFault(s, vpn, random) && TlbInRange(Resident(s, vpn, random).1)
  {
    var (f, s1) := Resident(s, vpn, random);
    LoadTlb(s1, f, s1.tlbCounter % TLB_SIZE)
  }

  // ---------- Context switches and page-table growth ----------

  /** One pass of SaveState or RestoreState over the TLB from slot `i`. */
  function FlushFrom(s: Vm, i: nat): (r: Vm)
    requires i <= |s.tlb| && |s.ipt| == NUM_PHYS_PAGES
    requires forall j :: 0 <= j < |s.tlb| && s.tlb[j].valid ==> 0 <= s.tlb[j].physicalPage < NUM_PHYS_PAGES
    ensures |r.tlb| == |s.tlb| && |r.ipt| == |s.ipt|
    decreases |s.tlb| - i
  {
    if i == |s.tlb| then s
    else
      var e := s.tlb[i];
      var ipt := if e.valid then s.ipt[e.physicalPage := s.ipt[e.physicalPage].(dirty := e.dirty)] else s.ipt;
      FlushFrom(s.(ipt := ipt, tlb := s.tlb[i := e.(valid := false)]), i + 1)
  }

  function NewStackPage(i: nat): PageEntry {
    PageEntry(i, -1, false, -1, NEITHER)
  }

  /** NewPageTable: eight more pages, with no disk location. */
  function Grow(s: Vm): Vm {
    s.(pageTable := s.pageTable + seq(STACK_PAGES, i requires 0 <= i => NewStackPage(|s.pageTable| + i)))
  }
}
