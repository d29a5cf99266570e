/** A run from start-up to an instruction that takes three page faults. */
module PagingWitness {
  import opened Bytes
  import opened BitMaps
  import opened Options
  import opened VirtualMemory
  import opened PagingInvariant
  import opened PagingSteps
  import opened PagingRuns
  import opened PagingProgress

  const CODE_SIZE := 33 * PAGE_SIZE

  /** Just after start-up, under FIFO, with a program of 33 pages. */
  function BootState(): Vm {
    Vm(seq(TLB_SIZE, _ => TlbEntry(0, 0, false, false, false, false)),
       seq(NUM_PHYS_PAGES, _ => IptEntry(0, 0, false, false, false, false, 0)),
       seq(MEMORY_SIZE, _ => 0),
       seq(33 + STACK_PAGES, i requires 0 <= i => PageEntry(i, 0, false, NOFF_HEADER_SIZE + PAGE_SIZE * i,
                                                            if i < 33 then EXECUTABLE else NEITHER)),
       seq(NUM_PHYS_PAGES, _ => false), seq(SWAP_SLOTS, _ => false), [], [], [], -1, true, 1)
  }

  lemma BootStateIsBooted()
    ensures Booted(BootState(), CODE_SIZE, 0, 0)
    ensures CountClear(BootState().swapMap) == SWAP_SLOTS
  {
    AllClear(SWAP_SLOTS);
  }

  lemma {:induction false} AllClear(n: nat)
    ensures CountClear(seq(n, _ => false)) == n
  {
    if n > 0 {
      assert seq(n, _ => false)[..n - 1] == seq(n - 1, _ => false);
      AllClear(n - 1);
    }
  }

  /** Pages 0..k have been loaded in order into frames 0..k, the last four are in the TLB. */
  ghost predicate LoadedInOrder(s: Vm, k: nat) {
    && Inv(s) && s.fifo && s.tlbCounter == k - 1 && k <= NUM_PHYS_PAGES && |s.pageTable| == 33 + STACK_PAGES
    && (forall f :: 0 <= f < NUM_PHYS_PAGES ==> (s.ipt[f].valid <==> f < k) && (f < k ==> s.ipt[f].virtualPage == f))
    && s.queue == seq(k, i => i)
    && (forall p {:trigger s.tlb[p % TLB_SIZE]} :: 0 <= p < k && k - 4 <= p ==>
          s.tlb[p % TLB_SIZE].valid && s.tlb[p % TLB_SIZE].virtualPage == p)
    && CountClear(s.swapMap) >= SWAP_SLOTS - k
  }

  lemma NotLoaded(s: Vm, k: nat, p: nat)
    requires LoadedInOrder(s, k) && k <= p
    ensures Where(s, p) == -1 && !InTlb(s, p)
  {
    forall f | InUse(s, f, -1)
      ensures s.ipt[f].virtualPage != p
    {
    }
    NotFound(s, p, -1);
    if InTlb(s, p) {
      InTlbIsResident(s, p);
    }
  }

  lemma NextFreeFrame(s: Vm, k: nat)
    requires LoadedInOrder(s, k) && k < NUM_PHYS_PAGES
    ensures FirstClear(s.frameMap, 0) == k
  {
    FirstClearIsLeast(s.frameMap, 0);
    assert !s.frameMap[k];
    assert forall f :: 0 <= f < k ==> s.frameMap[f];
  }

  lemma NextTlbSlots(s: Vm, r: Vm, k: nat, p: nat)
    requires LoadedInOrder(s, k) && PageFaultStep(s, r, k) && Where(s, k) == -1 && !Full(s) && p <= k < p + 4
    ensures r.tlb[p % TLB_SIZE].valid && r.tlb[p % TLB_SIZE].virtualPage == p
  {
  }

  lemma StaysInOrder(s: Vm, r: Vm, k: nat)
    requires LoadedInOrder(s, k) && k < NUM_PHYS_PAGES && PageFaultStep(s, r, k) && Where(s, k) == -1
    requires FirstClear(s.frameMap, 0) == k
    ensures LoadedInOrder(r, k + 1)
  {
    forall p {:trigger r.tlb[p % TLB_SIZE]} | 0 <= p < k + 1 && k + 1 - 4 <= p
      ensures r.tlb[p % TLB_SIZE].valid && r.tlb[p % TLB_SIZE].virtualPage == p
    {
      NextTlbSlots(s, r, k, p);
    }
  }

  lemma FaultIsLoadStep(s: Vm, k: nat)
    requires Faulting(s, k)
    ensures Next(s, Load(PAGE_SIZE * k, 4, 0), None, Serve(s, k))
  {
    ServeIsFault(s, k);
    assert PAGE_SIZE * k % 4 == 0 && PAGE_SIZE * k / PAGE_SIZE == k && (PAGE_SIZE * k + 3) / PAGE_SIZE == k;
    TranslatedIffInTlb(s, PAGE_SIZE * k, 4, false);
  }

  lemma LoadNext(s: Vm, k: nat) returns (r: Vm)
    requires LoadedInOrder(s, k) && k < NUM_PHYS_PAGES
    ensures LoadedInOrder(r, k + 1) && Next(s, Load(PAGE_SIZE * k, 4, 0), None, r)
  {
    NotLoaded(s, k, k);
    FaultIsLoadStep(s, k);
    ServeStep(s, k);
    NextFreeFrame(s, k);
    r := Serve(s, k);
    StaysInOrder(s, r, k);
  }

  lemma {:induction false} LoadPages(k: nat) returns (ss: seq<Vm>, ops: seq<Op>, outs: seq<Option<seq<byte>>>)
    requires k <= NUM_PHYS_PAGES
    ensures Run(ss, ops, outs) && |ops| == k && ss[0] == BootState() && LoadedInOrder(ss[k], k)
  {
    if k == 0 {
      BootStateIsBooted();
      BootedIsGood(BootState(), CODE_SIZE, 0, 0);
      ss, ops, outs := [BootState()], [], [];
    } else {
      var ts, ps, us := LoadPages(k - 1);
      var r := LoadNext(ts[k - 1], k - 1);
      ss, ops, outs := ts + [r], ps + [Load(PAGE_SIZE * (k - 1), 4, 0)], us + [None];
    }
  }

  /** Two faults are not always enough: after the program has touched its first 32 pages in order,
      an instruction on page 0 that reads page 32 faults three times. */
  lemma ThreeFaultsHappen() returns (ss: seq<Vm>, ops: seq<Op>, outs: seq<Option<seq<byte>>>, i: Instr)
    ensures Run(ss, ops, outs) && |ops| == NUM_PHYS_PAGES && Booted(ss[0], CODE_SIZE, 0, 0)
    ensures i == Instr(0, 32 * PAGE_SIZE, 4, false)
    ensures Ready(ss[32], i) && CountClear(ss[32].swapMap) > 3 && !Within(ss[32], i, 2) && Within(ss[32], i, 3)
  {
    BootStateIsBooted();
    ss, ops, outs := LoadPages(32);
    i := Instr(0, 32 * PAGE_SIZE, 4, false);
    var s := ss[32];
    NotLoaded(s, 32, 32);
    FoundFrame(s, 0);
    forall j | 0 <= j < TLB_SIZE
      ensures s.tlb[j].virtualPage == 28 + j
    {
      assert (28 + j) % TLB_SIZE == j;
    }
    FirstClearIsLeast(s.frameMap, 0);
    TwoFaultsUnlessCodePageNextToGo(s, i);
    AtMostThreeFaults(s, i);
  }
}
