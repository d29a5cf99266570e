/** The paging code itself, updating its tables in place: Machine::Translate, ReadMem and WriteMem,
    the page-fault handler, and AddrSpace's page-table code. Each method is proved to take the
    step that VirtualMemory and PagingRuns describe. */
module PagingKernel {
  import opened Bytes
  import opened BitMaps
  import opened Options
  import opened VirtualMemory
  import opened PagingInvariant
  import opened PagingSteps
  import opened PagingRuns

  class PagedMemory {
    const tlb: array<TlbEntry>
    const ipt: array<IptEntry>
    const mainMemory: array<byte>
    var pageTable: array<PageEntry>
    const frameMap: BitMap
    const swapfileMap: BitMap
    var swapfile: seq<byte>
    const executable: seq<byte>
    var swapQueue: seq<nat>
    var tlbCounter: int
    const runWithFIFO: bool
    const processId: int

    ghost predicate Valid()
      reads this, frameMap, swapfileMap
    {
      && tlb.Length == TLB_SIZE && ipt.Length == NUM_PHYS_PAGES && mainMemory.Length == MEMORY_SIZE
      && frameMap.Valid() && frameMap.numBits == NUM_PHYS_PAGES
      && swapfileMap.Valid() && swapfileMap.numBits == SWAP_SLOTS
      && frameMap.words != swapfileMap.words && tlbCounter >= -1
    }

    ghost function Repr(): set<object>
      reads this
    {
      {this, tlb, ipt, mainMemory, pageTable, frameMap, swapfileMap, frameMap.words, swapfileMap.words}
    }

    ghost function State(): (s: Vm)
      reads this, frameMap, swapfileMap, Repr()
      requires Valid()
      ensures Shape(s)
    {
      Vm(tlb[..], ipt[..], mainMemory[..], pageTable[..], frameMap.Contents(), swapfileMap.Contents(), swapfile, executable,
         swapQueue, tlbCounter, runWithFIFO, processId)
    }

    /** The kernel's tables as Initialize leaves them, and AddrSpace::AddrSpace filling the page
        table for a program with these segment sizes. */
    constructor (executable: seq<byte>, swapfile: seq<byte>, codeSize: nat, initSize: nat, uninitSize: nat, fifo: bool)
      ensures Valid() && fresh(Repr())
      ensures Booted(State(), codeSize, initSize, uninitSize)
      ensures State().executable == executable && State().swapfile == swapfile && State().fifo == fifo
    {
      tlb := new TlbEntry[TLB_SIZE](_ => TlbEntry(0, 0, false, false, false, false));
      ipt := new IptEntry[NUM_PHYS_PAGES](_ => IptEntry(0, 0, false, false, false, false, 0));
      mainMemory := new byte[MEMORY_SIZE](_ => 0);
      frameMap := new BitMap(NUM_PHYS_PAGES);
      swapfileMap := new BitMap(SWAP_SLOTS);
      this.swapfile, this.executable, swapQueue, tlbCounter, runWithFIFO := swapfile, executable, [], -1, fifo;
      processId := 1;
      var numPages := DivRoundUp(codeSize + initSize + uninitSize, PAGE_SIZE) + STACK_PAGES;
      var table := FillPageTable(numPages, DivRoundUp(codeSize + initSize, PAGE_SIZE));
      pageTable := table;
    }

    static method FillPageTable(numPages: nat, backedPages: nat) returns (table: array<PageEntry>)
      ensures fresh(table) && table.Length == numPages
      ensures forall j :: 0 <= j < numPages ==>
                && table[j].virtualPage == j && !table[j].valid && table[j].byteOffset == NOFF_HEADER_SIZE + PAGE_SIZE * j
                && table[j].diskLocation == if j < backedPages then EXECUTABLE else NEITHER
    {
      table := new PageEntry[numPages];
      for i := 0 to numPages
        invariant forall j :: 0 <= j < i ==>
                    && table[j].virtualPage == j && !table[j].valid
                    && table[j].byteOffset == NOFF_HEADER_SIZE + PAGE_SIZE * j
                    && table[j].diskLocation == if j < backedPages then EXECUTABLE else NEITHER
      {
        table[i] := table[i].(virtualPage := i, valid := false, byteOffset := NOFF_HEADER_SIZE + PAGE_SIZE * i);
        if i < backedPages {
          table[i] := table[i].(diskLocation := EXECUTABLE);
        } else {
          table[i] := table[i].(diskLocation := NEITHER);
        }
      }
    }

    /** Machine::Translate. */
    method Translate(virtAddr: nat, size: nat, writing: bool) returns (exception: Option<ExceptionType>, physAddr: nat)
      requires Valid()
      modifies tlb
      ensures Valid()
      ensures match VirtualMemory.Translate(old(State()), virtAddr, size, writing)
              case Translated(at, after) => exception == None && physAddr == at && State() == after
              case Raised(which) => exception == Some(which) && State() == old(State())
    {
      physAddr := 0;
      if (size == 4 && virtAddr % 4 != 0) || (size == 2 && virtAddr % 2 != 0) {
        return Some(AddressErrorException), 0;
      }
      var vpn := virtAddr / PAGE_SIZE;
      var offset := virtAddr % PAGE_SIZE;
      var found := -1;
      for i := 0 to TLB_SIZE
        invariant found == -1 && FindTlb(tlb[..], vpn, 0) == FindTlb(tlb[..], vpn, i)
      {
        if tlb[i].valid && tlb[i].virtualPage == vpn {
          found := i;
          break;
        }
      }
      if found == -1 {
        return Some(PageFaultException), 0;
      }
      var entry := tlb[found];
      if entry.readOnly && writing {
        return Some(ReadOnlyException), 0;
      }
      if entry.physicalPage < 0 || entry.physicalPage >= NUM_PHYS_PAGES {
        return Some(BusErrorException), 0;
      }
      ghost var was := tlb[..];
      tlb[found] := entry.(use := true, dirty := entry.dirty || writing);
      assert tlb[..] == was[found := entry.(use := true, dirty := entry.dirty || writing)];
      physAddr := entry.physicalPage * PAGE_SIZE + offset;
      exception := None;
    }

    /** handleMemoryFull: picks the frame to evict and saves its page. */
    method HandleMemoryFull(random: nat) returns (pageToBoot: nat)
      requires Valid() && random < NUM_PHYS_PAGES
      requires HoldsPage(State(), Victim(State(), random))
      requires MustSwap(State(), Victim(State(), random)) ==> FirstClear(State().swapMap, 0) != -1
      modifies this`swapQueue, this`swapfile, tlb, ipt, pageTable, swapfileMap.words
      ensures Valid() && pageToBoot == Victim(old(State()), random)
      ensures var s := old(State());
              State() == Evict(s.(queue := if s.fifo && s.queue != [] then s.queue[1..] else s.queue), pageToBoot)
    {
      ghost var s := State();
      if runWithFIFO {
        pageToBoot := 0;
        if swapQueue != [] {
          pageToBoot := swapQueue[0];
          swapQueue := swapQueue[1..];
        }
      } else {
        pageToBoot := random;
      }
      EvictFrame(pageToBoot);
    }

    method EvictFrame(pageToBoot: nat)
      requires Valid() && HoldsPage(State(), pageToBoot)
      requires MustSwap(State(), pageToBoot) ==> FirstClear(State().swapMap, 0) != -1
      modifies this`swapfile, tlb, ipt, pageTable, swapfileMap.words
      ensures Valid() && State() == Evict(old(State()), pageToBoot)
    {
      ghost var s := State();
      DropFromTlb(pageToBoot);
      assert ipt[pageToBoot].dirty <==> MustSwap(s, pageToBoot);
      if ipt[pageToBoot].dirty {
        SwapOut(pageToBoot);
      } else {
        assert ipt[..] == s.ipt;
      }
      Unmap(ipt[pageToBoot].virtualPage);
    }

    method Unmap(page: nat)
      requires Valid() && page < pageTable.Length
      modifies pageTable
      ensures Valid()
      ensures State() == old(State()).(pageTable := old(pageTable[..])[page := old(pageTable[page]).(physicalPage := -1)])
    {
      pageTable[page] := pageTable[page].(physicalPage := -1);
      assert pageTable[..] == old(pageTable[..])[page := old(pageTable[page]).(physicalPage := -1)];
    }

    /** Drops the victim's TLB entries, propagating their dirty bits. */
    method DropFromTlb(pageToBoot: nat)
      requires Valid() && pageToBoot < NUM_PHYS_PAGES
      modifies tlb, ipt
      ensures var s := old(State()); var page := s.ipt[pageToBoot].virtualPage;
              State() == s.(tlb := DropPage(s.tlb, page),
                            ipt := s.ipt[pageToBoot := s.ipt[pageToBoot].(dirty := s.ipt[pageToBoot].dirty || DirtyInTlb(s.tlb, page))])
    {
      var page := ipt[pageToBoot].virtualPage;
      ghost var tlb0, ipt0 := tlb[..], ipt[..];
      for i := 0 to TLB_SIZE
        invariant forall j :: 0 <= j < TLB_SIZE ==> tlb[j] == if j < i then DropPage(tlb0, page)[j] else tlb0[j]
        invariant ipt[..] == ipt0[pageToBoot := ipt0[pageToBoot].(dirty := ipt0[pageToBoot].dirty || DirtyInTlb(tlb0[..i], page))]
      {
        DirtyInPrefix(tlb0, i, page);
        if tlb[i].virtualPage == page && tlb[i].valid {
          tlb[i] := tlb[i].(valid := false);
          if tlb[i].dirty {
            ipt[pageToBoot] := ipt[pageToBoot].(dirty := true);
          }
        }
      }
      assert tlb0[..TLB_SIZE] == tlb0;
      assert tlb[..] == DropPage(tlb0, page);
    }

    /** Writes the frame to a fresh slot of the swap file and records it in the page table. */
    method SwapOut(pageToBoot: nat)
      requires Valid() && HoldsPage(State(), pageToBoot) && FirstClear(State().swapMap, 0) != -1
      modifies this`swapfile, pageTable, swapfileMap.words
      ensures Valid()
      ensures var s := old(State()); var page := s.ipt[pageToBoot].virtualPage; var slot := FirstClear(s.swapMap, 0);
              State() == s.(swapMap := s.swapMap[slot := true],
                            swapfile := WriteFile(s.swapfile, PAGE_SIZE * slot, Frame(s.memory, pageToBoot)),
                            pageTable := s.pageTable[page := s.pageTable[page].(diskLocation := SWAP, byteOffset := PAGE_SIZE * slot)])
    {
      var page := ipt[pageToBoot].virtualPage;
      ghost var table := pageTable[..];
      var slot := swapfileMap.Find();
      swapfile := WriteFile(swapfile, PAGE_SIZE * slot, Frame(mainMemory[..], pageToBoot));
      pageTable[page] := pageTable[page].(diskLocation := SWAP);
      pageTable[page] := pageTable[page].(byteOffset := PAGE_SIZE * slot);
      assert pageTable[..] == table[page := table[page].(diskLocation := SWAP, byteOffset := PAGE_SIZE * slot)];
    }

    /** Finds a free frame, or makes one free. */
    method TakeFrame(random: nat) returns (ppn: nat)
      requires Valid() && random < NUM_PHYS_PAGES
      requires FirstClear(State().frameMap, 0) == -1 ==>
                 && HoldsPage(State(), Victim(State(), random))
                 && (MustSwap(State(), Victim(State(), random)) ==> FirstClear(State().swapMap, 0) != -1)
      modifies this`swapQueue, this`swapfile, tlb, ipt, pageTable, frameMap.words, swapfileMap.words
      ensures Valid() && (ppn, State()) == Hole(old(State()), random)
    {
      hide Evict, FirstClear;
      var found := frameMap.Find();
      if found == -1 {
        ppn := HandleMemoryFull(random);
      } else {
        ppn := found;
      }
    }

    /** handleIPTMiss: brings the page into a free or an evicted frame. */
    method HandleIPTMiss(virtualPage: nat, random: nat) returns (ppn: nat)
      requires Valid() && CanFault(State(), virtualPage, random)
      requires FindFrame(State().ipt, virtualPage, processId, 0) == -1
      modifies this`swapQueue, this`swapfile, tlb, ipt, mainMemory, pageTable, frameMap.words, swapfileMap.words
      ensures Valid() && (ppn, State()) == Miss(old(State()), virtualPage, random)
    {
      MissIsLoadIntoHole(State(), virtualPage, random);
      hide Hole, Miss, LoadPage, FindFrame, FirstClear;
      ppn := TakeFrame(random);
      LoadInto(virtualPage, ppn);
    }

    /** Reads the page from its disk location and updates the tables. */
    method LoadInto(virtualPage: nat, ppn: nat)
      requires Valid() && virtualPage < pageTable.Length && ppn < NUM_PHYS_PAGES
      modifies this`swapQueue, ipt, mainMemory, pageTable
      ensures Valid() && State() == LoadPage(old(State()), virtualPage, ppn)
    {
      ghost var s := State();
      match pageTable[virtualPage].diskLocation {
        case EXECUTABLE => ReadAt(executable, pageTable[virtualPage].byteOffset, ppn);
        case SWAP => ReadAt(swapfile, pageTable[virtualPage].byteOffset, ppn);
        case NEITHER => SetFrameToItself(s.memory, ppn);
      }
      if runWithFIFO {
        swapQueue := swapQueue + [ppn];
      }
      ipt[ppn] := ipt[ppn].(virtualPage := virtualPage, physicalPage := ppn, valid := true, spaceOwner := processId);
      pageTable[virtualPage] := pageTable[virtualPage].(physicalPage := ppn, virtualPage := virtualPage, valid := true);
      assert mainMemory[..] == SetFrame(s.memory, ppn, LoadedFrame(s, virtualPage, ppn));
      assert ipt[..] == LoadPage(s, virtualPage, ppn).ipt;
      assert pageTable[..] == LoadPage(s, virtualPage, ppn).pageTable;
    }

    /** OpenFile::ReadAt of one page into frame `ppn`. */
    method ReadAt(file: seq<byte>, offset: int, ppn: nat)
      requires Valid() && ppn < NUM_PHYS_PAGES
      modifies mainMemory
      ensures mainMemory[..] == SetFrame(old(mainMemory[..]), ppn,
                                         ReadFile(file, offset) + Frame(old(mainMemory[..]), ppn)[|ReadFile(file, offset)|..])
    {
      var data := ReadFile(file, offset);
      forall k | 0 <= k < |data| {
        mainMemory[PAGE_SIZE * ppn + k] := data[k];
      }
    }

    /** The handler's search of the inverted page table. */
    method FindResident(virtualPage: nat) returns (ppn: int)
      requires Valid()
      ensures ppn == FindFrame(ipt[..], virtualPage, processId, 0)
    {
      for i := 0 to NUM_PHYS_PAGES
        invariant FindFrame(ipt[..], virtualPage, processId, 0) == FindFrame(ipt[..], virtualPage, processId, i)
      {
        if ipt[i].virtualPage == virtualPage && ipt[i].spaceOwner == processId && ipt[i].valid {
          return i;
        }
      }
      return -1;
    }

    /** HandlePageFault. */
    method HandlePageFault(virtualAddress: nat, random: nat)
      requires Valid() && CanFault(State(), virtualAddress / PAGE_SIZE, random)
      requires TlbInRange(Resident(State(), virtualAddress / PAGE_SIZE, random).1)
      modifies this`swapQueue, this`swapfile, this`tlbCounter
      modifies tlb, ipt, mainMemory, pageTable, frameMap.words, swapfileMap.words
      ensures Valid() && State() == Fault(old(State()), virtualAddress / PAGE_SIZE, random)
    {
      hide Miss, LoadTlb, Evict, LoadPage, FindFrame;
      var virtualPage := virtualAddress / PAGE_SIZE;
      tlbCounter := tlbCounter + 1;
      var ppn := FindResident(virtualPage);
      if ppn == -1 {
        ppn := HandleIPTMiss(virtualPage, random);
      }
      FillTlb(ppn);
    }

    /** Saves the dirty bit of the entry in the next slot and replaces it. */
    method FillTlb(ppn: nat)
      requires Valid() && ppn < NUM_PHYS_PAGES && tlbCounter >= 0 && TlbInRange(State())
      modifies tlb, ipt
      ensures Valid() && State() == LoadTlb(old(State()), ppn, tlbCounter % TLB_SIZE)
    {
      var k := tlbCounter % TLB_SIZE;
      ghost var s := State();
      if tlb[k].valid {
        ipt[tlb[k].physicalPage] := ipt[tlb[k].physicalPage].(dirty := tlb[k].dirty);
      }
      tlb[k] := TlbEntry(ipt[ppn].virtualPage, ipt[ppn].physicalPage, ipt[ppn].valid, ipt[ppn].readOnly, ipt[ppn].use,
                         ipt[ppn].dirty);
      assert ipt[..] == LoadTlb(s, ppn, k).ipt;
      assert tlb[..] == LoadTlb(s, ppn, k).tlb;
    }

    /** AddrSpace::SaveState; RestoreState has the same body. */
    method SaveState()
      requires Valid() && TlbInRange(State())
      modifies tlb, ipt
      ensures Valid() && State() == FlushFrom(old(State()), 0)
    {
      for i := 0 to TLB_SIZE
        invariant Valid() && TlbInRange(State()) && FlushFrom(State(), i) == FlushFrom(old(State()), 0)
      {
        ghost var s := State();
        if tlb[i].valid {
          ipt[tlb[i].physicalPage] := ipt[tlb[i].physicalPage].(dirty := tlb[i].dirty);
        }
        tlb[i] := tlb[i].(valid := false);
        assert tlb[..] == s.tlb[i := s.tlb[i].(valid := false)];
        assert ipt[..] == if s.tlb[i].valid then s.ipt[s.tlb[i].physicalPage := s.ipt[s.tlb[i].physicalPage].(dirty := s.tlb[i].dirty)]
                          else s.ipt;
      }
    }

    /** AddrSpace::NewPageTable: copies the table and adds eight stack pages. */
    method NewPageTable() returns (start: nat)
      requires Valid()
      modifies this`pageTable
      ensures Valid() && fresh(pageTable) && State() == Grow(old(State())) && start == old(pageTable.Length)
    {
      var numPages := pageTable.Length;
      var newTable := new PageEntry[numPages + STACK_PAGES];
      for i := 0 to numPages
        invariant forall j :: 0 <= j < i ==> newTable[j] == pageTable[j]
        modifies newTable
      {
        newTable[i] := pageTable[i];
      }
      for i := numPages to numPages + STACK_PAGES
        invariant forall j :: 0 <= j < numPages ==> newTable[j] == pageTable[j]
        invariant forall j :: numPages <= j < i ==> newTable[j] == NewStackPage(j)
        modifies newTable
      {
        newTable[i] := PageEntry(i, -1, false, -1, NEITHER);
      }
      ghost var s := State();
      pageTable := newTable;
      start := numPages;
      assert pageTable[..] == Grow(s).pageTable;
    }

    /** Machine::ReadMem, with the exception it raises handled; `bytes` is absent when it fails. */
    method ReadMem(addr: nat, size: nat, random: nat) returns (ok: bool, value: int, ghost bytes: Option<seq<byte>>)
      requires Valid() && Inv(State()) && FirstClear(State().swapMap, 0) != -1
      requires size in {1, 2, 4} && (addr + size - 1) / PAGE_SIZE < pageTable.Length && random < NUM_PHYS_PAGES
      modifies this`swapQueue, this`swapfile, this`tlbCounter
      modifies tlb, ipt, mainMemory, pageTable, frameMap.words, swapfileMap.words
      ensures Valid() && Next(old(State()), Load(addr, size, random), bytes, State())
      ensures ok == bytes.Some? && (ok ==> |bytes.value| == size && value == LoadValue(bytes.value))
    {
      ghost var s := State();
      value := 0;
      var exception, physicalAddress := Translate(addr, size, false);
      match exception {
        case None =>
          LoadIsView(s, addr, size, 0);
          ok, bytes := true, Some(mainMemory[physicalAddress..physicalAddress + size]);
          value := LoadValue(mainMemory[physicalAddress..physicalAddress + size]);
        case Some(which) =>
          ok, bytes := false, None;
          if which.PageFaultException? {
            FaultIsServable(s, addr / PAGE_SIZE, random);
            FaultRefines(s, addr / PAGE_SIZE, random);
            HandlePageFault(addr, random);
          }
      }
    }

    method StoreAt(physicalAddress: nat, data: seq<byte>)
      requires Valid() && physicalAddress + |data| <= MEMORY_SIZE
      modifies mainMemory
      ensures Valid() && State() == old(State()).(memory := StoreBytes(old(mainMemory[..]), physicalAddress, data))
    {
      forall k | 0 <= k < |data| {
        mainMemory[physicalAddress + k] := data[k];
      }
      assert mainMemory[..] == StoreBytes(old(mainMemory[..]), physicalAddress, data);
    }

    /** Machine::WriteMem likewise; `ok` is false when it fails. */
    method WriteMem(addr: nat, size: nat, value: int, random: nat) returns (ok: bool)
      requires Valid() && Inv(State()) && FirstClear(State().swapMap, 0) != -1
      requires size in {1, 2, 4} && (addr + size - 1) / PAGE_SIZE < pageTable.Length && random < NUM_PHYS_PAGES
      modifies this`swapQueue, this`swapfile, this`tlbCounter
      modifies tlb, ipt, mainMemory, pageTable, frameMap.words, swapfileMap.words
      ensures Valid() && Next(old(State()), Store(addr, StoreImage(size, value), random), if ok then Some([]) else None, State())
    {
      ghost var s := State();
      var data := StoreImage(size, value);
      var exception, physicalAddress := Translate(addr, size, true);
      match exception {
        case None =>
          StoreFits(s, addr, data);
          StoreAt(physicalAddress, data);
          ok := true;
        case Some(which) =>
          ok := false;
          if which.PageFaultException? {
            FaultIsServable(s, addr / PAGE_SIZE, random);
            FaultRefines(s, addr / PAGE_SIZE, random);
            HandlePageFault(addr, random);
          }
      }
    }

    /** ReadMem of one byte, in terms of what the address space holds. */
    method TryReadByte(vaddr: nat, random: nat) returns (result: bool, value: int)
      requires Valid() && Inv(State()) && CountClear(State().swapMap) > 0
      requires vaddr / PAGE_SIZE < pageTable.Length && random < NUM_PHYS_PAGES
      modifies this`swapQueue, this`swapfile, this`tlbCounter
      modifies tlb, ipt, mainMemory, pageTable, frameMap.words, swapfileMap.words
      ensures Valid() && ByteStep(old(State()), vaddr, result, value, if result then 0 else 1, State())
      ensures InTlbNow(old(State()), vaddr) ==> result
      ensures !result ==> InTlbNow(State(), vaddr)
    {
      ghost var s := State();
      FindSucceedsIffClear(s.swapMap);
      ghost var bytes;
      result, value, bytes := ReadMem(vaddr, 1, random);
      LoadStep(s, vaddr, random, bytes, State());
    }

    /** The inner loop of copyin: reads one byte, retrying while the read faults. `rand` supplies
        the handler's random numbers. */
    method ReadByte(vaddr: nat, rand: nat -> nat, calls: nat) returns (value: int, used: nat)
      requires Valid() && Inv(State()) && CountClear(State().swapMap) > 1
      requires vaddr < PAGE_SIZE * pageTable.Length && forall k :: rand(k) < NUM_PHYS_PAGES
      modifies this`swapQueue, this`swapfile, this`tlbCounter
      modifies tlb, ipt, mainMemory, pageTable, frameMap.words, swapfileMap.words
      ensures Valid() && ByteStep(old(State()), vaddr, true, value, 1, State())
    {
      ghost var s := State();
      var result;
      result, value := TryReadByte(vaddr, rand(calls));
      used := calls + 1;
      while !result
        invariant Valid() && ByteStep(s, vaddr, result, value, 1, State())
        invariant !result ==> InTlbNow(State(), vaddr)
        decreases !result
      {
        ghost var before := State();
        result, value := TryReadByte(vaddr, rand(used));
        ByteStepAgain(s, vaddr, before, value, State());
        used := used + 1;
      }
    }

    /** One round of copyin's outer loop: reads one more byte behind `buf`. */
    method CopyByte(ghost s: Vm, vaddr: nat, buf: seq<byte>, rand: nat -> nat, calls: nat) returns (b: byte, used: nat)
      requires Valid() && Copied(s, vaddr, buf, |buf|, State()) && CountClear(s.swapMap) > |buf| + 1
      requires vaddr + |buf| < PAGE_SIZE * pageTable.Length && forall k :: rand(k) < NUM_PHYS_PAGES
      modifies this`swapQueue, this`swapfile, this`tlbCounter
      modifies tlb, ipt, mainMemory, pageTable, frameMap.words, swapfileMap.words
      ensures Valid() && Copied(s, vaddr, buf + [b], |buf| + 1, State())
    {
      ghost var before := State();
      var value;
      value, used := ReadByte(vaddr + |buf|, rand, calls);
      b := value % 256;
      CopiedOneMore(s, vaddr, buf, before, value, State());
    }

    /** copyin: what it brings in is what the address space holds. */
    method CopyIn(vaddr: nat, len: nat, rand: nat -> nat) returns (buf: seq<byte>)
      requires Valid() && Inv(State()) && CountClear(State().swapMap) > len
      requires vaddr + len <= PAGE_SIZE * pageTable.Length && forall k :: rand(k) < NUM_PHYS_PAGES
      modifies this`swapQueue, this`swapfile, this`tlbCounter
      modifies tlb, ipt, mainMemory, pageTable, frameMap.words, swapfileMap.words
      ensures Valid() && |buf| == len && Copied(old(State()), vaddr, buf, len, State())
    {
      ghost var s := State();
      buf := [];
      var calls := 0;
      SameMemoryRefines(s, s);
      for n := 0 to len
        invariant Valid() && |buf| == n && Copied(s, vaddr, buf, n, State())
      {
        var b;
        b, calls := CopyByte(s, vaddr, buf, rand, calls);
        buf := buf + [b];
      }
    }
  }

  /** From `s` to `r` memory is kept, at most `slots` swap slots are used, and `buf` is what `s`
      holds from `vaddr` on, wherever that is defined. */
  ghost predicate Copied(s: Vm, vaddr: nat, buf: seq<byte>, slots: nat, r: Vm) {
    && Inv(s) && vaddr + |buf| <= PAGE_SIZE * |s.pageTable| && |r.pageTable| == |s.pageTable| && Refines(s, r)
    && CountClear(r.swapMap) + slots >= CountClear(s.swapMap)
    && forall j :: 0 <= j < |buf| && View(s, vaddr + j).Some? ==> buf[j] == View(s, vaddr + j).value
  }

  lemma CopiedOneMore(s: Vm, vaddr: nat, buf: seq<byte>, t: Vm, value: int, r: Vm)
    requires Copied(s, vaddr, buf, |buf|, t) && ByteStep(t, vaddr + |buf|, true, value, 1, r)
    requires vaddr + |buf| < PAGE_SIZE * |s.pageTable|
    ensures Copied(s, vaddr, buf + [value % 256], |buf| + 1, r)
  {
    hide View, Inv, ByteAt;
    RefinesTransitive(s, t, r);
    assert Keeps(View(s, vaddr + |buf|), View(t, vaddr + |buf|));
  }

  ghost predicate InTlbNow(s: Vm, addr: nat) {
    VirtualMemory.Translate(s, addr, 1, false).Translated?
  }

  /** From `s` to `r` memory is kept and at most `slots` swap slots are used; if `ok`, `value` is the
      byte at `addr` wherever that is defined. */
  ghost predicate ByteStep(s: Vm, addr: nat, ok: bool, value: int, slots: nat, r: Vm) {
    && Inv(s) && addr / PAGE_SIZE < |s.pageTable| && Refines(s, r) && |r.pageTable| == |s.pageTable|
    && CountClear(r.swapMap) + slots >= CountClear(s.swapMap)
    && (ok && View(s, addr).Some? ==> value % 256 == View(s, addr).value)
  }

  lemma ByteStepAgain(s: Vm, addr: nat, t: Vm, value: int, r: Vm)
    requires ByteStep(s, addr, false, 0, 1, t) && ByteStep(t, addr, true, value, 0, r)
    ensures ByteStep(s, addr, true, value, 1, r)
  {
    RefinesTransitive(s, t, r);
    assert Keeps(View(s, addr), View(t, addr));
  }

  /** One byte-sized load: what it returns, what it keeps, and that a retry will not fault. */
  lemma LoadStep(s: Vm, addr: nat, random: nat, bytes: Option<seq<byte>>, r: Vm)
    requires Inv(s) && Next(s, Load(addr, 1, random), bytes, r)
    ensures bytes.Some? ==> |bytes.value| == 1
    ensures ByteStep(s, addr, bytes.Some?, if bytes.Some? then LoadValue(bytes.value) else 0, if bytes.Some? then 0 else 1, r)
    ensures InTlbNow(s, addr) <==> bytes.Some?
    ensures bytes == None ==> InTlbNow(r, addr)
  {
    if InTlbNow(s, addr) {
      TranslateRefines(s, addr, 1, false);
      LoadIsView(s, addr, 1, 0);
    } else {
      FoundEntryTranslates(s, addr);
      FaultedLoad(s, addr, random);
    }
  }

  lemma FaultedLoad(s: Vm, addr: nat, random: nat)
    requires Inv(s) && VirtualMemory.Translate(s, addr, 1, false) == Raised(PageFaultException)
    requires CanFault(s, addr / PAGE_SIZE, random) && TlbInRange(Resident(s, addr / PAGE_SIZE, random).1)
    ensures ByteStep(s, addr, false, 0, 1, Fault(s, addr / PAGE_SIZE, random))
    ensures InTlbNow(Fault(s, addr / PAGE_SIZE, random), addr)
  {
    FaultUsesOneSlot(s, addr / PAGE_SIZE, random);
    FaultRefines(s, addr / PAGE_SIZE, random);
    FaultKeepsPageCount(s, addr / PAGE_SIZE, random);
    RetrySucceeds(s, addr, 1, false, random);
  }

  lemma FaultKeepsPageCount(s: Vm, vpn: int, random: nat)
    requires CanFault(s, vpn, random) && TlbInRange(Resident(s, vpn, random).1)
    ensures |Fault(s, vpn, random).pageTable| == |s.pageTable|
  {
  }

  lemma FoundEntryTranslates(s: Vm, addr: nat)
    requires Inv(s) && VirtualMemory.Translate(s, addr, 1, false).Raised?
    ensures VirtualMemory.Translate(s, addr, 1, false) == Raised(PageFaultException)
  {
    forall i | 0 <= i < |s.tlb| && s.tlb[i].valid
      ensures 0 <= s.tlb[i].physicalPage < NUM_PHYS_PAGES && !s.tlb[i].readOnly
    {
      assert TlbOk(s, i, -1);
    }
  }

  lemma SetFrameToItself(memory: seq<byte>, f: nat)
    requires |memory| == MEMORY_SIZE && f < NUM_PHYS_PAGES
    ensures SetFrame(memory, f, Frame(memory, f)) == memory
  {
  }

  lemma DirtyInPrefix(tlb: seq<TlbEntry>, i: nat, page: int)
    requires i < |tlb|
    ensures DirtyInTlb(tlb[..i + 1], page) <==> DirtyInTlb(tlb[..i], page) || (Matches(tlb[i], page) && tlb[i].dirty)
  {
    if DirtyInTlb(tlb[..i], page) {
      var j :| 0 <= j < i && Matches(tlb[..i][j], page) && tlb[..i][j].dirty;
      assert Matches(tlb[..i + 1][j], page) && tlb[..i + 1][j].dirty;
    }
    assert tlb[..i + 1][i] == tlb[i];
  }
}
