/** What one page fault does to the tables, under either replacement policy, and what an access comes
    to: which frame is taken, which page goes, and what is written to the swap file. */
module PagingFaults {
  import opened Bytes
  import opened BitMaps
  import opened Options
  import opened VirtualMemory
  import opened PagingInvariant
  import opened PagingSteps

  ghost predicate HoldsIn(s: Vm, f: int, p: nat) {
    InUse(s, f, -1) && s.ipt[f].virtualPage == p && p < |s.pageTable| && s.pageTable[p].physicalPage == f
  }

  ghost predicate InNoFrame(s: Vm, p: int) {
    forall f :: InUse(s, f, -1) ==> s.ipt[f].virtualPage != p
  }

  /** Every frame but `v` holds the page that it held. */
  ghost predicate OtherFramesHold(s: Vm, r: Vm, v: nat) {
    forall f, p: nat :: f != v && HoldsIn(s, f, p) ==> HoldsIn(r, f, p)
  }

  lemma AbsentIsNotFound(s: Vm, p: nat)
    requires Inv(s) && InNoFrame(s, p)
    ensures FindFrame(s.ipt, p, s.processId, 0) == -1 && FindTlb(s.tlb, p, 0) == -1
  {
    NotFound(s, p, -1);
    AbsentFromTlb(s, p, -1);
  }

  /** Frame `v` is dirty, or its page is dirty in the TLB. */
  ghost predicate WrittenBack(s: Vm, v: nat)
    requires v < |s.ipt|
  {
    || s.ipt[v].dirty
    || exists i :: 0 <= i < |s.tlb| && s.tlb[i].valid && s.tlb[i].virtualPage == s.ipt[v].virtualPage && s.tlb[i].dirty
  }

  ghost predicate LeastClear(bits: seq<bool>, i: nat) {
    i < |bits| && !bits[i] && forall j :: 0 <= j < i ==> bits[j]
  }

  /** The page in frame `v` goes to the first free slot if it is dirty; otherwise the swap file, its
      bitmap and the page's place on disk stay as they are. */
  ghost predicate SwapsOut(s: Vm, r: Vm, v: nat)
    requires v < NUM_PHYS_PAGES && Shape(s) && Shape(r)
  {
    var gone := s.ipt[v].virtualPage;
    && 0 <= gone < |s.pageTable| && |r.pageTable| == |s.pageTable| && r.pageTable[gone].physicalPage == -1
    && if WrittenBack(s, v) then
         exists slot: nat ::
           && LeastClear(s.swapMap, slot) && r.swapMap == s.swapMap[slot := true]
           && PAGE_SIZE * slot + PAGE_SIZE <= |r.swapfile|
           && r.swapfile[PAGE_SIZE * slot..PAGE_SIZE * slot + PAGE_SIZE] == Frame(s.memory, v)
           && r.pageTable[gone].diskLocation == SWAP && r.pageTable[gone].byteOffset == PAGE_SIZE * slot
       else
         && r.swapMap == s.swapMap && r.swapfile == s.swapfile
         && r.pageTable[gone].diskLocation == s.pageTable[gone].diskLocation
         && r.pageTable[gone].byteOffset == s.pageTable[gone].byteOffset
  }

  /** The page table has page `p` in frame `f`; no other page's entry changes but `gone`'s. */
  predicate EntersTable(s: Vm, r: Vm, p: nat, f: nat, gone: int)
    requires p < |s.pageTable|
  {
    && |r.pageTable| == |s.pageTable|
    && r.pageTable[p] == s.pageTable[p].(physicalPage := f, virtualPage := p, valid := true)
    && forall q :: 0 <= q < |s.pageTable| && q != p && q != gone ==> r.pageTable[q] == s.pageTable[q]
  }

  lemma WrittenBackIsMustSwap(s: Vm, v: nat)
    requires HoldsPage(s, v)
    ensures WrittenBack(s, v) <==> MustSwap(s, v)
  {
    if DirtyInTlb(s.tlb, s.ipt[v].virtualPage) {
      var i :| 0 <= i < |s.tlb| && Matches(s.tlb[i], s.ipt[v].virtualPage) && s.tlb[i].dirty;
      assert s.tlb[i].valid && s.tlb[i].virtualPage == s.ipt[v].virtualPage && s.tlb[i].dirty;
    }
    if i :| 0 <= i < |s.tlb| && s.tlb[i].valid && s.tlb[i].virtualPage == s.ipt[v].virtualPage && s.tlb[i].dirty {
      assert Matches(s.tlb[i], s.ipt[v].virtualPage);
    }
  }

  lemma ClearIsFound(bits: seq<bool>)
    ensures (exists k :: 0 <= k < |bits| && !bits[k]) <==> FirstClear(bits, 0) != -1
    ensures FirstClear(bits, 0) != -1 ==> LeastClear(bits, FirstClear(bits, 0))
  {
    FirstClearIsLeast(bits, 0);
  }

  /** With memory full, the page takes the frame loaded longest ago under FIFO, and frame `random`
      otherwise; the page that was there is in no frame any more; the others stay. */
  lemma FaultInFullMemory(s: Vm, p: nat, random: nat, v: nat)
    requires Inv(s) && p < |s.pageTable| && InNoFrame(s, p) && random < NUM_PHYS_PAGES
    requires forall f :: 0 <= f < NUM_PHYS_PAGES ==> s.frameMap[f]
    requires if s.fifo then s.queue != [] && v == s.queue[0] else v == random
    requires v < NUM_PHYS_PAGES && (WrittenBack(s, v) ==> exists k :: 0 <= k < SWAP_SLOTS && !s.swapMap[k])
    ensures CanFault(s, p, random) && TlbInRange(Resident(s, p, random).1)
    ensures var r := Fault(s, p, random);
            && Shape(r) && HoldsIn(r, v, p) && InNoFrame(r, s.ipt[v].virtualPage) && OtherFramesHold(s, r, v)
            && SwapsOut(s, r, v) && (r.ipt[v].dirty <==> WrittenBack(s, v)) && EntersTable(s, r, p, v, s.ipt[v].virtualPage)
            && r.queue == if s.fifo then s.queue[1..] + [v] else s.queue
  {
    AbsentIsNotFound(s, p);
    ClearIsFound(s.frameMap);
    ClearIsFound(s.swapMap);
    assert InUse(s, v, -1) && FrameOk(s, v);
    WrittenBackIsMustSwap(s, v);
    FaultRefines(s, p, random);
    FullFaultTables(s, p, random, v);
    FullFaultSwaps(s, p, random, v);
  }

  lemma FullFaultTables(s: Vm, p: nat, random: nat, v: nat)
    requires Inv(s) && p < |s.pageTable| && InNoFrame(s, p) && CanFault(s, p, random) && TlbInRange(Resident(s, p, random).1)
    requires FindFrame(s.ipt, p, s.processId, 0) == -1 && FirstClear(s.frameMap, 0) == -1
    requires (if s.fifo then s.queue != [] && v == s.queue[0] else v == random) && InUse(s, v, -1)
    requires Inv(Fault(s, p, random))
    ensures var r := Fault(s, p, random);
            && HoldsIn(r, v, p) && InNoFrame(r, s.ipt[v].virtualPage) && OtherFramesHold(s, r, v)
            && r.queue == if s.fifo then s.queue[1..] + [v] else s.queue
  {
    var r := Fault(s, p, random);
    assert FrameOk(s, v);
    assert r.ipt[v].valid && r.ipt[v].virtualPage == p;
    assert forall f :: 0 <= f < NUM_PHYS_PAGES && f != v ==>
      r.ipt[f].valid == s.ipt[f].valid && r.ipt[f].virtualPage == s.ipt[f].virtualPage;
    hide Fault, Resident, CanFault;
    assert InUse(r, v, -1) && FrameOk(r, v);
    forall f | InUse(r, f, -1)
      ensures r.ipt[f].virtualPage != s.ipt[v].virtualPage
    {
      if f != v {
        assert InUse(s, f, -1);
      }
    }
    forall f, q: nat | f != v && HoldsIn(s, f, q)
      ensures HoldsIn(r, f, q)
    {
      assert InUse(r, f, -1) && FrameOk(r, f);
    }
  }

  lemma FullFaultSwaps(s: Vm, p: nat, random: nat, v: nat)
    requires Inv(s) && p < |s.pageTable| && InNoFrame(s, p) && CanFault(s, p, random) && TlbInRange(Resident(s, p, random).1)
    requires FindFrame(s.ipt, p, s.processId, 0) == -1 && FirstClear(s.frameMap, 0) == -1
    requires (if s.fifo then s.queue != [] && v == s.queue[0] else v == random) && InUse(s, v, -1)
    requires HoldsPage(s, v) && (WrittenBack(s, v) <==> MustSwap(s, v))
    ensures Shape(Fault(s, p, random)) && SwapsOut(s, Fault(s, p, random), v)
    ensures Fault(s, p, random).ipt[v].dirty <==> WrittenBack(s, v)
    ensures EntersTable(s, Fault(s, p, random), p, v, s.ipt[v].virtualPage)
  {
    FaultEvicts(s, p, random, v);
    hide Inv, Fault, Resident, CanFault;
    var e := Evict(s, v);
    if WrittenBack(s, v) {
      var slot := FirstClear(s.swapMap, 0);
      ClearIsFound(s.swapMap);
      WriteFileAt(s.swapfile, PAGE_SIZE * slot, Frame(s.memory, v));
      hide WriteFile;
      assert LeastClear(s.swapMap, slot) && e.swapMap == s.swapMap[slot := true];
    }
  }

  /** The swap file and the evicted page's entries are as eviction leaves them. */
  lemma FaultEvicts(s: Vm, p: nat, random: nat, v: nat)
    requires Inv(s) && p < |s.pageTable| && InNoFrame(s, p) && CanFault(s, p, random) && TlbInRange(Resident(s, p, random).1)
    requires FindFrame(s.ipt, p, s.processId, 0) == -1 && FirstClear(s.frameMap, 0) == -1
    requires (if s.fifo then s.queue != [] && v == s.queue[0] else v == random) && InUse(s, v, -1) && HoldsPage(s, v)
    ensures MustSwap(s, v) ==> FirstClear(s.swapMap, 0) != -1
    ensures var r := Fault(s, p, random); var e := Evict(s, v); var gone := s.ipt[v].virtualPage;
            && Shape(r) && r.swapMap == e.swapMap && r.swapfile == e.swapfile && r.ipt[v].dirty == e.ipt[v].dirty
            && |r.pageTable| == |s.pageTable| && r.pageTable[gone] == e.pageTable[gone] && EntersTable(s, r, p, v, gone)
  {
    var c := s.(tlbCounter := s.tlbCounter + 1, queue := if s.fifo then s.queue[1..] else s.queue);
    EvictAlike(s, c, v);
    EvictedNotInTlb(s, v, (s.tlbCounter + 1) % TLB_SIZE);
    EvictedTable(s, v);
    ResidentIsLoad(s, p, random, v, c);
    assert s.ipt[v].virtualPage != p;
    hide Inv, InNoFrame, CanFault, Resident, LoadPage, LoadTlb, MustSwap, Evict, FindFrame, FirstClear;
    LoadFields(Evict(c, v), p, v, (s.tlbCounter + 1) % TLB_SIZE);
  }

  /** With memory full a page is made resident by an eviction and a load. */
  lemma ResidentIsLoad(s: Vm, p: nat, random: nat, v: nat, c: Vm)
    requires p < |s.pageTable| && CanFault(s, p, random)
    requires FindFrame(s.ipt, p, s.processId, 0) == -1 && FirstClear(s.frameMap, 0) == -1
    requires (if s.fifo then s.queue != [] && v == s.queue[0] else v == random) && HoldsPage(c, v)
    requires (MustSwap(c, v) ==> FirstClear(c.swapMap, 0) != -1) && p < |Evict(c, v).pageTable|
    requires c == s.(tlbCounter := s.tlbCounter + 1, queue := if s.fifo then s.queue[1..] else s.queue)
    ensures Resident(s, p, random) == (v, LoadPage(Evict(c, v), p, v))
  {
    ResidentIsMiss(s, p, random);
    MissIsLoadIntoHole(s.(tlbCounter := s.tlbCounter + 1), p, random);
    hide Miss, LoadPage;
  }

  lemma LoadFields(t: Vm, p: nat, h: nat, k: nat)
    requires Shape(t) && p < |t.pageTable| && h < NUM_PHYS_PAGES && k < TLB_SIZE
    requires Shape(LoadPage(t, p, h)) && TlbInRange(LoadPage(t, p, h)) && (t.tlb[k].valid ==> t.tlb[k].physicalPage != h)
    ensures var r := LoadTlb(LoadPage(t, p, h), h, k);
            && Shape(r) && r.swapMap == t.swapMap && r.swapfile == t.swapfile && r.ipt[h].dirty == t.ipt[h].dirty
            && EntersTable(t, r, p, h, -1)
  {
    hide SetFrame, LoadedFrame;
  }

  /** Eviction does not look at the queue or the counter. */
  lemma EvictAlike(s: Vm, c: Vm, v: nat)
    requires HoldsPage(s, v) && (MustSwap(s, v) ==> FirstClear(s.swapMap, 0) != -1)
    requires c == s.(queue := c.queue, tlbCounter := c.tlbCounter) && Shape(c)
    ensures HoldsPage(c, v) && (MustSwap(c, v) <==> MustSwap(s, v))
    ensures Evict(c, v) == Evict(s, v).(queue := c.queue, tlbCounter := c.tlbCounter)
  {
    hide WriteFile;
  }

  lemma EvictedTable(s: Vm, v: nat)
    requires HoldsPage(s, v) && (MustSwap(s, v) ==> FirstClear(s.swapMap, 0) != -1)
    ensures var e := Evict(s, v);
            |e.pageTable| == |s.pageTable| && forall q :: 0 <= q < |s.pageTable| && q != s.ipt[v].virtualPage ==> e.pageTable[q] == s.pageTable[q]
  {
    hide WriteFile;
  }

  lemma EvictedNotInTlb(s: Vm, v: nat, k: nat)
    requires Inv(s) && InUse(s, v, -1) && HoldsPage(s, v) && (MustSwap(s, v) ==> FirstClear(s.swapMap, 0) != -1) && k < TLB_SIZE
    ensures Evict(s, v).tlb[k].valid ==> Evict(s, v).tlb[k].physicalPage != v
  {
    assert TlbOk(s, k, -1);
    hide WriteFile;
  }

  /** With a frame clear, the page takes the first such frame, and none loses its page. */
  lemma FaultWithFrameLeft(s: Vm, p: nat, random: nat, f: nat)
    requires Inv(s) && p < |s.pageTable| && InNoFrame(s, p) && random < NUM_PHYS_PAGES && LeastClear(s.frameMap, f)
    ensures CanFault(s, p, random) && TlbInRange(Resident(s, p, random).1)
    ensures var r := Fault(s, p, random);
            && HoldsIn(r, f, p) && OtherFramesHold(s, r, f) && r.frameMap == s.frameMap[f := true] && EntersTable(s, r, p, f, -1)
            && r.swapMap == s.swapMap && r.swapfile == s.swapfile && r.ipt[f].dirty == s.ipt[f].dirty
            && r.queue == if s.fifo then s.queue + [f] else s.queue
  {
    AbsentIsNotFound(s, p);
    ClearIsFound(s.frameMap);
    FaultRefines(s, p, random);
    var r := Fault(s, p, random);
    assert TlbOk(s, (s.tlbCounter + 1) % TLB_SIZE, -1);
    assert r.ipt[f].dirty == s.ipt[f].dirty;
    assert r.ipt[f].valid && r.ipt[f].virtualPage == p;
    assert forall g :: 0 <= g < NUM_PHYS_PAGES && g != f ==>
      r.ipt[g].valid == s.ipt[g].valid && r.ipt[g].virtualPage == s.ipt[g].virtualPage;
    hide Fault, Resident, CanFault;
    assert InUse(r, f, -1) && FrameOk(r, f);
    forall g, q: nat | g != f && HoldsIn(s, g, q)
      ensures HoldsIn(r, g, q)
    {
      assert InUse(r, g, -1) && FrameOk(r, g);
    }
  }

  /** A page in memory stays where it is, and so do the others. */
  lemma FaultOnResidentPage(s: Vm, p: nat, random: nat, f: nat)
    requires Inv(s) && HoldsIn(s, f, p) && FindTlb(s.tlb, p, 0) == -1 && random < NUM_PHYS_PAGES
    ensures CanFault(s, p, random) && TlbInRange(Resident(s, p, random).1)
    ensures var r := Fault(s, p, random);
            && (forall g, q: nat :: HoldsIn(s, g, q) ==> HoldsIn(r, g, q))
            && r.memory == s.memory && r.swapfile == s.swapfile && r.queue == s.queue && r.frameMap == s.frameMap
  {
    FoundFrame(s, f);
    FaultRefines(s, p, random);
    var r := Fault(s, p, random);
    assert forall g :: 0 <= g < NUM_PHYS_PAGES ==>
      r.ipt[g].valid == s.ipt[g].valid && r.ipt[g].virtualPage == s.ipt[g].virtualPage;
    hide Fault, Resident, CanFault;
    forall g, q: nat | HoldsIn(s, g, q)
      ensures HoldsIn(r, g, q)
    {
      assert InUse(r, g, -1) && FrameOk(r, g);
    }
  }

  /** The frame that a fault on page `p` uses. */
  ghost predicate Uses(s: Vm, p: nat, random: nat, f: nat) {
    CanFault(s, p, random) && Resident(s, p, random).0 == f
  }

  /** The bytes of page `p` once it is brought into frame `f`: from the swap file or the executable, and
      what the frame held where neither has one. */
  ghost function BroughtIn(s: Vm, p: nat, f: nat): (page: seq<byte>)
    requires Inv(s) && p < |s.pageTable| && f < NUM_PHYS_PAGES
    ensures |page| == PAGE_SIZE
  {
    assert PageOk(s, p);
    var at := s.pageTable[p].byteOffset;
    match s.pageTable[p].diskLocation
    case SWAP => s.swapfile[at..at + PAGE_SIZE]
    case EXECUTABLE =>
      seq(PAGE_SIZE, o requires 0 <= o < PAGE_SIZE => if at + o < |s.executable| then s.executable[at + o] else Frame(s.memory, f)[o])
    case NEITHER => Frame(s.memory, f)
  }

  lemma LoadedIsBroughtIn(s: Vm, t: Vm, p: nat, f: nat)
    requires Inv(s) && p < |s.pageTable| && f < NUM_PHYS_PAGES
    requires p < |t.pageTable| && t.pageTable[p] == s.pageTable[p] && t.memory == s.memory && t.executable == s.executable
    requires s.pageTable[p].diskLocation == SWAP ==>
               var at := s.pageTable[p].byteOffset;
               PageOk(s, p) && at + PAGE_SIZE <= |t.swapfile| && t.swapfile[at..at + PAGE_SIZE] == SwapCopy(s, p)
    ensures LoadedFrame(t, p, f) == BroughtIn(s, p, f)
  {
    assert PageOk(s, p);
    hide Inv;
  }

  /** A page is brought in with these bytes; no other frame's bytes change. */
  lemma FaultBringsIn(s: Vm, p: nat, random: nat, f: nat)
    requires Inv(s) && p < |s.pageTable| && InNoFrame(s, p) && Uses(s, p, random, f)
    ensures f < NUM_PHYS_PAGES && TlbInRange(Resident(s, p, random).1)
    ensures var r := Fault(s, p, random);
            && Shape(r) && Frame(r.memory, f) == BroughtIn(s, p, f)
            && forall g :: 0 <= g < NUM_PHYS_PAGES && g != f ==> Frame(r.memory, g) == Frame(s.memory, g)
  {
    AbsentIsNotFound(s, p);
    FaultRefines(s, p, random);
    MissLoads(s, p, random, f);
    hide Fault, Resident, CanFault, Inv, BroughtIn;
    forall g | 0 <= g < NUM_PHYS_PAGES
      ensures Frame(Fault(s, p, random).memory, g) == if g == f then BroughtIn(s, p, f) else Frame(s.memory, g)
    {
      FrameOfSetFrame(s.memory, f, BroughtIn(s, p, f), g);
    }
  }

  lemma LoadTlbKeepsMemory(s: Vm, p: nat, random: nat)
    requires CanFault(s, p, random) && TlbInRange(Resident(s, p, random).1)
    ensures Fault(s, p, random).memory == Resident(s, p, random).1.memory
  {
    hide Resident;
  }

  lemma ResidentIsMiss(s: Vm, p: nat, random: nat)
    requires CanFault(s, p, random) && FindFrame(s.ipt, p, s.processId, 0) == -1
    ensures var c := s.(tlbCounter := s.tlbCounter + 1); CanFault(c, p, random) && Resident(s, p, random) == Miss(c, p, random)
  {
    hide Miss;
  }

  lemma MissLoads(s: Vm, p: nat, random: nat, f: nat)
    requires Inv(s) && p < |s.pageTable| && InNoFrame(s, p) && Uses(s, p, random, f) && f < NUM_PHYS_PAGES
    requires FindFrame(s.ipt, p, s.processId, 0) == -1 && TlbInRange(Resident(s, p, random).1)
    ensures Fault(s, p, random).memory == SetFrame(s.memory, f, BroughtIn(s, p, f))
  {
    LoadTlbKeepsMemory(s, p, random);
    CounterIrrelevant(s, s.tlbCounter + 1);
    ResidentIsMiss(s, p, random);
    hide Inv, CanFault, BroughtIn, Fault, Miss, Resident, LoadedFrame, SetFrame;
    var c := s.(tlbCounter := s.tlbCounter + 1);
    MissIsLoadIntoHole(c, p, random);
    HoleKeepsPage(c, p, random);
    var (h, t) := Hole(c, random);
    hide Hole;
    LoadedIsBroughtIn(s, t, p, h);
  }

  lemma HoleKeepsPage(s: Vm, p: nat, random: nat)
    requires Inv(s) && p < |s.pageTable| && InNoFrame(s, p) && CanFault(s, p, random) && FindFrame(s.ipt, p, s.processId, 0) == -1
    ensures var t := Hole(s, random).1;
            && p < |t.pageTable| && t.pageTable[p] == s.pageTable[p] && t.memory == s.memory && t.executable == s.executable
            && (s.pageTable[p].diskLocation == SWAP ==>
                  var at := s.pageTable[p].byteOffset;
                  PageOk(s, p) && at + PAGE_SIZE <= |t.swapfile| && t.swapfile[at..at + PAGE_SIZE] == SwapCopy(s, p))
  {
    assert PageOk(s, p);
    if FirstClear(s.frameMap, 0) == -1 {
      AllLoaded(s);
      var v := Victim(s, random);
      assert InUse(s, v, -1) && FrameOk(s, v);
      var s1 := s.(queue := if s.fifo && s.queue != [] then s.queue[1..] else s.queue);
      QueueIrrelevant(s, -1, s1.queue);
      EvictKeepsDisk(s1, v, p, Frame(s.memory, v));
    }
  }

  /** The page's entry goes into the TLB slot after the last one loaded, with the frame's bits; the entry
      that was there leaves its dirty bit in the inverted table; the others stay, but for an evicted
      page's. */
  lemma FaultLoadsTlb(s: Vm, p: nat, random: nat, f: nat)
    requires Inv(s) && p < |s.pageTable| && FindTlb(s.tlb, p, 0) == -1 && Uses(s, p, random, f)
    ensures f < NUM_PHYS_PAGES && TlbInRange(Resident(s, p, random).1)
    ensures var r := Fault(s, p, random); var k := (s.tlbCounter + 1) % 4;
            && Shape(r) && r.tlbCounter == s.tlbCounter + 1
            && r.tlb[k] == TlbEntry(p, f, true, false, r.ipt[f].use, r.ipt[f].dirty)
            && (forall j :: 0 <= j < 4 && j != k ==>
                  r.tlb[j] == s.tlb[j] || (InNoFrame(r, s.tlb[j].virtualPage) && r.tlb[j] == s.tlb[j].(valid := false)))
            && (forall g :: InUse(r, g, -1) && s.tlb[k].valid && r.ipt[g].virtualPage == s.tlb[k].virtualPage ==>
                  r.ipt[g].dirty == s.tlb[k].dirty)
  {
    ResidentRefines(s, p, random);
    ResidentTlb(s, p, random, f);
    var (_, t) := Resident(s, p, random);
    LoadedTlb(t, p, f);
    var r, k := LoadTlb(t, f, t.tlbCounter % 4), (s.tlbCounter + 1) % 4;
    assert Fault(s, p, random) == r;
    hide Fault, Resident, LoadTlb, CanFault, Inv, TlbInRange;
    forall j | 0 <= j < 4 && j != k
      ensures r.tlb[j] == s.tlb[j] || (InNoFrame(r, s.tlb[j].virtualPage) && r.tlb[j] == s.tlb[j].(valid := false))
    {
      if t.tlb[j] != s.tlb[j] {
        assert InNoFrame(t, s.tlb[j].virtualPage);
      }
    }
  }

  /** Loading an entry into the TLB. */
  lemma LoadedTlb(t: Vm, p: nat, f: nat)
    requires Inv(t) && InUse(t, f, -1) && t.ipt[f].virtualPage == p && TlbInRange(t)
    ensures f < NUM_PHYS_PAGES
    ensures var k := t.tlbCounter % 4; var r := LoadTlb(t, f, k);
            && Shape(r) && r.tlbCounter == t.tlbCounter && r.tlb[k] == TlbEntry(p, f, true, false, r.ipt[f].use, r.ipt[f].dirty)
            && (forall j :: 0 <= j < 4 && j != k ==> r.tlb[j] == t.tlb[j])
            && (forall g :: InUse(r, g, -1) <==> InUse(t, g, -1))
            && (forall g :: InUse(r, g, -1) ==> r.ipt[g].virtualPage == t.ipt[g].virtualPage)
            && (forall g :: InUse(r, g, -1) && t.tlb[k].valid && r.ipt[g].virtualPage == t.tlb[k].virtualPage ==>
                  r.ipt[g].dirty == t.tlb[k].dirty)
  {
    var k := t.tlbCounter % 4;
    assert FrameOk(t, f) && TlbOk(t, k, -1);
    assert t.tlb[k].valid ==> InUse(t, t.tlb[k].physicalPage, -1);
  }

  /** Before the TLB is loaded it has lost only an evicted page's entries. */
  lemma ResidentTlb(s: Vm, p: nat, random: nat, f: nat)
    requires Inv(s) && p < |s.pageTable| && FindTlb(s.tlb, p, 0) == -1 && Uses(s, p, random, f)
    ensures var t := Resident(s, p, random).1;
            && Shape(t) && forall j :: 0 <= j < 4 ==>
                 t.tlb[j] == s.tlb[j] || (InNoFrame(t, s.tlb[j].virtualPage) && t.tlb[j] == s.tlb[j].(valid := false))
  {
    var t := Resident(s, p, random).1;
    if FindFrame(s.ipt, p, s.processId, 0) == -1 && FirstClear(s.frameMap, 0) == -1 {
      AllLoaded(s);
      var v := Victim(s, random);
      assert InUse(s, v, -1);
      AbsentPage(s, p);
      assert forall g :: InUse(t, g, -1) ==> t.ipt[g].virtualPage == if g == v then p else s.ipt[g].virtualPage;
      hide Resident;
      forall g | InUse(t, g, -1)
        ensures t.ipt[g].virtualPage != s.ipt[v].virtualPage
      {
        assert InUse(s, g, -1);
      }
    }
  }

  // ---------- Accesses ----------

  ghost predicate MappedInTlb(s: Vm, p: int) {
    exists i :: 0 <= i < |s.tlb| && s.tlb[i].valid && s.tlb[i].virtualPage == p
  }

  /** What an access comes to: an address error exactly when it is not aligned, else a page fault exactly
      when the TLB lacks the page, else the byte's address in the page's frame, the entry marked as used,
      and dirty if it was or the access writes. */
  lemma AccessOutcome(s: Vm, addr: nat, size: nat, writing: bool)
    requires Inv(s)
    ensures Translate(s, addr, size, writing) == Raised(AddressErrorException) <==>
              (size == 4 && addr % 4 != 0) || (size == 2 && addr % 2 != 0)
    ensures Translate(s, addr, size, writing) == Raised(PageFaultException) <==>
              !((size == 4 && addr % 4 != 0) || (size == 2 && addr % 2 != 0)) && !MappedInTlb(s, addr / PAGE_SIZE)
    ensures match Translate(s, addr, size, writing)
            case Translated(at, r) =>
              && HoldsIn(s, at / PAGE_SIZE, addr / PAGE_SIZE) && at % PAGE_SIZE == addr % PAGE_SIZE
              && r == s.(tlb := r.tlb) && |r.tlb| == |s.tlb|
              && forall i :: 0 <= i < |s.tlb| ==>
                   r.tlb[i] == if s.tlb[i].valid && s.tlb[i].virtualPage == addr / PAGE_SIZE then
                                 s.tlb[i].(use := true, dirty := s.tlb[i].dirty || writing)
                               else s.tlb[i]
            case Raised(e) => e != ReadOnlyException && e != BusErrorException
  {
    var i := FindTlb(s.tlb, addr / PAGE_SIZE, 0);
    if i != -1 {
      assert TlbOk(s, i, -1) && InUse(s, s.tlb[i].physicalPage, -1);
      assert FrameOk(s, s.tlb[i].physicalPage);
    }
  }
}
