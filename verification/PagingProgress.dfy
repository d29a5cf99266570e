/** How many page faults one instruction can take. Under FIFO replacement, with no context switch
    in between, an instruction that touches one code page and one data page completes after at
    most three faults, and after at most two unless the code page is resident only in the frame
    that is next to be evicted. */
module PagingProgress {
  import opened Bytes
  import opened BitMaps
  import opened Options
  import opened VirtualMemory
  import opened PagingInvariant
  import opened PagingSteps

  // ---------- One attempt at an instruction ----------

  /** A fetch at `pc` and one data access, as in OneInstruction. */
  datatype Instr = Instr(pc: nat, addr: nat, size: nat, writing: bool)

  ghost predicate Aligned(s: Vm, i: Instr) {
    && i.pc % 4 == 0 && (i.pc + 3) / PAGE_SIZE < |s.pageTable|
    && i.size in {1, 2, 4} && (i.size == 4 ==> i.addr % 4 == 0) && (i.size == 2 ==> i.addr % 2 == 0)
    && (i.addr + i.size - 1) / PAGE_SIZE < |s.pageTable|
  }

  ghost predicate Ready(s: Vm, i: Instr) {
    Inv(s) && s.fifo && Aligned(s, i) && CountClear(s.swapMap) > 0
  }

  datatype Try = Done | Faulted(after: Vm)

  /** The handler's result on a fault that can be served. */
  ghost function Serve(s: Vm, vpn: nat): (r: Vm)
    requires Inv(s) && vpn < |s.pageTable| && CountClear(s.swapMap) > 0 && FindTlb(s.tlb, vpn, 0) == -1
    ensures Inv(r)
  {
    FindSucceedsIffClear(s.swapMap);
    FaultIsServable(s, vpn, 0);
    FaultRefines(s, vpn, 0);
    Fault(s, vpn, 0)
  }

  lemma TranslatedIffInTlb(s: Vm, addr: nat, size: nat, writing: bool)
    requires Inv(s) && (size == 4 ==> addr % 4 == 0) && (size == 2 ==> addr % 2 == 0)
    ensures Translate(s, addr, size, writing).Translated? <==> FindTlb(s.tlb, addr / PAGE_SIZE, 0) != -1
    ensures FindTlb(s.tlb, addr / PAGE_SIZE, 0) == -1 <==> Translate(s, addr, size, writing) == Raised(PageFaultException)
  {
    var i := FindTlb(s.tlb, addr / PAGE_SIZE, 0);
    if i != -1 {
      assert TlbOk(s, i, -1);
    }
  }

  ghost function Attempt(s: Vm, i: Instr): Try
    requires Ready(s, i)
  {
    TranslatedIffInTlb(s, i.pc, 4, false);
    match Translate(s, i.pc, 4, false)
    case Raised(_) => Faulted(Serve(s, i.pc / PAGE_SIZE))
    case Translated(_, after) =>
      TranslateRefines(s, i.pc, 4, false);
      TranslatedIffInTlb(after, i.addr, i.size, i.writing);
      match Translate(after, i.addr, i.size, i.writing)
      case Raised(_) => Faulted(Serve(after, i.addr / PAGE_SIZE))
      case Translated(_, _) => Done
  }

  // ---------- What a fault does to the tables ----------

  /** The state around one served fault on page `p`, in frame `f`, which evicted page `e` (or -1). */
  ghost predicate FaultShape(s: Vm, r: Vm, p: nat, f: nat, e: int)
    requires Shape(s) && Shape(r)
  {
    var k := r.tlbCounter % TLB_SIZE;
    && r.tlbCounter == s.tlbCounter + 1 && r.fifo == s.fifo && r.processId == s.processId
    && |r.pageTable| == |s.pageTable|
    && r.tlb[k].valid && r.tlb[k].virtualPage == p
    && (forall j :: 0 <= j < TLB_SIZE && j != k && s.tlb[j].valid && s.tlb[j].virtualPage != e ==>
          r.tlb[j].valid && r.tlb[j].virtualPage == s.tlb[j].virtualPage)
    && InUse(r, f, -1) && r.ipt[f].virtualPage == p
    && (forall g :: 0 <= g < NUM_PHYS_PAGES && g != f ==>
          (r.ipt[g].valid <==> s.ipt[g].valid) && r.ipt[g].virtualPage == s.ipt[g].virtualPage)
    && CountClear(r.swapMap) >= CountClear(s.swapMap) - 1
  }

  ghost predicate Full(s: Vm) {
    FirstClear(s.frameMap, 0) == -1
  }

  lemma FaultHit(s: Vm, p: nat)
    requires CanFault(s, p, 0) && TlbInRange(Resident(s, p, 0).1) && FindFrame(s.ipt, p, s.processId, 0) != -1
    ensures var r := Fault(s, p, 0);
            && FaultShape(s, r, p, FindFrame(s.ipt, p, s.processId, 0), -1) && r.queue == s.queue && r.frameMap == s.frameMap
  {
  }

  lemma FaultFree(s: Vm, p: nat)
    requires CanFault(s, p, 0) && TlbInRange(Resident(s, p, 0).1) && FindFrame(s.ipt, p, s.processId, 0) == -1
    requires s.fifo && !Full(s)
    ensures var r := Fault(s, p, 0); var f := FirstClear(s.frameMap, 0);
            FaultShape(s, r, p, f, -1) && r.queue == s.queue + [f]
  {
  }

  lemma FaultFull(s: Vm, p: nat)
    requires CanFault(s, p, 0) && TlbInRange(Resident(s, p, 0).1) && FindFrame(s.ipt, p, s.processId, 0) == -1
    requires s.fifo && Full(s) && s.queue != []
    ensures var r := Fault(s, p, 0); var v := s.queue[0];
            && v < NUM_PHYS_PAGES && FaultShape(s, r, p, v, s.ipt[v].virtualPage) && r.queue == s.queue[1..] + [v]
            && r.frameMap == s.frameMap
  {
    var v := s.queue[0];
    assert HoldsPage(s, v);
    if MustSwap(s, v) {
      FirstClearIsLeast(s.swapMap, 0);
      CountClearUpdate(s.swapMap, FirstClear(s.swapMap, 0), true);
    }
  }

  ghost predicate Faulting(s: Vm, p: nat) {
    Inv(s) && s.fifo && p < |s.pageTable| && CountClear(s.swapMap) > 0 && FindTlb(s.tlb, p, 0) == -1
  }

  lemma ServeIsFault(s: Vm, p: nat)
    requires Faulting(s, p)
    ensures CanFault(s, p, 0) && TlbInRange(Resident(s, p, 0).1) && Serve(s, p) == Fault(s, p, 0)
    ensures Full(s) ==> s.queue != [] && InUse(s, s.queue[0], -1)
  {
    FindSucceedsIffClear(s.swapMap);
    FaultIsServable(s, p, 0);
    FaultRefines(s, p, 0);
    if Full(s) {
      AllLoaded(s);
    }
  }

  // ---------- The tables across one attempt ----------

  predicate InTlb(s: Vm, p: nat) {
    FindTlb(s.tlb, p, 0) != -1
  }

  function Where(s: Vm, p: nat): int {
    FindFrame(s.ipt, p, s.processId, 0)
  }

  /** `r` is a good state reached from `s` by serving a fault on page `p`. */
  ghost predicate PageFaultStep(s: Vm, r: Vm, p: nat) {
    && Inv(s) && Inv(r) && s.fifo
    && if Where(s, p) != -1 then
         FaultShape(s, r, p, Where(s, p), -1) && r.queue == s.queue && r.frameMap == s.frameMap
       else if !Full(s) then
         FaultShape(s, r, p, FirstClear(s.frameMap, 0), -1) && r.queue == s.queue + [FirstClear(s.frameMap, 0)]
       else
         && s.queue != [] && InUse(s, s.queue[0], -1)
         && FaultShape(s, r, p, s.queue[0], s.ipt[s.queue[0]].virtualPage)
         && r.queue == s.queue[1..] + [s.queue[0]] && r.frameMap == s.frameMap
  }

  lemma ServeStep(s: Vm, p: nat)
    requires Faulting(s, p)
    ensures PageFaultStep(s, Serve(s, p), p)
  {
    ServeIsFault(s, p);
    if Where(s, p) != -1 {
      FaultHit(s, p);
    } else if Full(s) {
      FaultFull(s, p);
    } else {
      FaultFree(s, p);
    }
  }

  /** Use and dirty bits do not show in the tables. */
  lemma UseBitsIrrelevant(s: Vm, t: Vm, r: Vm, p: nat)
    requires Inv(s) && PageFaultStep(t, r, p) && t == s.(tlb := t.tlb)
    requires forall j :: 0 <= j < TLB_SIZE ==> t.tlb[j].valid == s.tlb[j].valid && t.tlb[j].virtualPage == s.tlb[j].virtualPage
    ensures PageFaultStep(s, r, p)
  {
  }

  /** An attempt faults on the code page, else on the data page, else completes. */
  lemma AttemptStep(s: Vm, i: Instr)
    requires Ready(s, i)
    ensures var c, d := i.pc / PAGE_SIZE, i.addr / PAGE_SIZE;
            match Attempt(s, i)
            case Done => InTlb(s, c) && InTlb(s, d)
            case Faulted(r) =>
              var p := if InTlb(s, c) then d else c;
              !InTlb(s, p) && PageFaultStep(s, r, p)
  {
    var c, d := i.pc / PAGE_SIZE, i.addr / PAGE_SIZE;
    TranslatedIffInTlb(s, i.pc, 4, false);
    if !InTlb(s, c) {
      ServeStep(s, c);
    } else {
      var t := Translate(s, i.pc, 4, false).after;
      TranslateRefines(s, i.pc, 4, false);
      TranslatedIffInTlb(t, i.addr, i.size, i.writing);
      UseBitKeepsTlb(s.tlb, t.tlb, d);
      if !InTlb(s, d) {
        ServeStep(t, d);
        UseBitsIrrelevant(s, t, Serve(t, d), d);
      }
    }
  }

  lemma UseBitKeepsTlb(tlb: seq<TlbEntry>, after: seq<TlbEntry>, p: nat)
    requires |tlb| == |after|
    requires forall j :: 0 <= j < |tlb| ==> after[j].valid == tlb[j].valid && after[j].virtualPage == tlb[j].virtualPage
    ensures FindTlb(after, p, 0) == -1 <==> FindTlb(tlb, p, 0) == -1
  {
  }

  /** The page just served is in the newest slot. */
  lemma Newest(s: Vm, r: Vm, p: nat)
    requires PageFaultStep(s, r, p)
    ensures FindTlb(r.tlb, p, 0) == r.tlbCounter % TLB_SIZE
  {
    var k := r.tlbCounter % TLB_SIZE;
    assert r.tlb[k].valid && r.tlb[k].virtualPage == p;
  }

  /** A fault on `p` throws a page out of the TLB only from its own slot or by evicting it. */
  lemma StaysInTlb(s: Vm, r: Vm, p: nat, q: nat)
    requires PageFaultStep(s, r, p) && q != p && InTlb(s, q) && FindTlb(s.tlb, q, 0) != r.tlbCounter % TLB_SIZE
    requires Where(s, p) == -1 && Full(s) ==> s.queue != [] && Where(s, q) != s.queue[0]
    ensures InTlb(r, q)
  {
    var j := FindTlb(s.tlb, q, 0);
    assert TlbOk(s, j, -1);
    FoundFrame(s, s.tlb[j].physicalPage);
    if Where(s, p) == -1 && Full(s) {
      assert InUse(s, s.queue[0], -1) && InUse(s, Where(s, q), -1);
    }
    assert r.tlb[j].valid && r.tlb[j].virtualPage == q;
  }

  /** A page brought in by a miss is not the next to be evicted. */
  lemma JustLoadedIsSafe(s: Vm, r: Vm, p: nat)
    requires PageFaultStep(s, r, p) && Where(s, p) == -1 && Full(r)
    ensures r.queue != [] && Where(r, p) != r.queue[0]
  {
    AllLoaded(r);
    var f := if Full(s) then s.queue[0] else FirstClear(s.frameMap, 0);
    FoundFrame(r, f);
    var g := if f == 0 then 1 else 0;
    assert InUse(r, g, -1) && g in r.queue;
    assert r.queue[|r.queue| - 1] == f;
    assert |r.queue| > 1;
  }

  lemma InTlbIsResident(s: Vm, p: nat)
    requires Inv(s) && InTlb(s, p)
    ensures Where(s, p) != -1 && InUse(s, Where(s, p), -1)
  {
    var j := FindTlb(s.tlb, p, 0);
    assert TlbOk(s, j, -1);
    FoundFrame(s, s.tlb[j].physicalPage);
  }

  /** Nothing is evicted by a fault on a resident page. */
  lemma HitKeepsResident(s: Vm, r: Vm, p: nat, q: nat)
    requires PageFaultStep(s, r, p) && Where(s, p) != -1
    ensures Where(r, q) == Where(s, q)
  {
    if Where(s, q) != -1 {
      assert InUse(r, Where(s, q), -1);
      FoundFrame(r, Where(s, q));
    } else {
      AbsentPage(s, q);
      assert forall g :: InUse(r, g, -1) ==> InUse(s, g, -1) && r.ipt[g].virtualPage == s.ipt[g].virtualPage;
      NotFound(r, q, -1);
    }
  }

  /** When memory is full a miss evicts the page in the oldest frame. */
  lemma MissEvictsOldest(s: Vm, r: Vm, p: nat, q: nat)
    requires PageFaultStep(s, r, p) && Where(s, p) == -1 && Full(s) && q != p && s.queue != [] && Where(s, q) == s.queue[0]
    ensures Where(r, q) == -1 && !InTlb(r, q)
  {
    forall g | InUse(r, g, -1)
      ensures r.ipt[g].virtualPage != q
    {
      assert g != s.queue[0] ==> InUse(s, g, -1);
    }
    NotFound(r, q, -1);
    if InTlb(r, q) {
      InTlbIsResident(r, q);
    }
  }

  // ---------- The bound ----------

  lemma AttemptKeepsReady(s: Vm, i: Instr, n: nat)
    requires Ready(s, i) && CountClear(s.swapMap) > n && n > 0 && Attempt(s, i).Faulted?
    ensures Ready(Attempt(s, i).after, i) && CountClear(Attempt(s, i).after.swapMap) > n - 1
  {
    AttemptStep(s, i);
  }

  /** The instruction completes after at most `n` page faults. */
  ghost predicate Within(s: Vm, i: Instr, n: nat)
    requires Ready(s, i) && CountClear(s.swapMap) > n
    decreases n
  {
    match Attempt(s, i)
    case Done => true
    case Faulted(r) =>
      n > 0 && (AttemptKeepsReady(s, i, n); Within(r, i, n - 1))
  }

  /** The code page is mapped but not in the TLB, sits in the frame that is next to go, memory is
      full, and the data page is not in memory. */
  ghost predicate CodePageNextToGo(s: Vm, i: Instr) {
    var c, d := i.pc / PAGE_SIZE, i.addr / PAGE_SIZE;
    && !InTlb(s, c) && Full(s) && s.queue != [] && Where(s, c) == s.queue[0]
    && Where(s, d) == -1
  }

  lemma BothInTlb(s: Vm, r: Vm, p: nat, q: nat)
    requires PageFaultStep(s, r, q) && p != q && FindTlb(s.tlb, p, 0) == s.tlbCounter % TLB_SIZE && s.tlbCounter >= -1
    requires Where(s, q) == -1 && Full(s) ==> s.queue != [] && Where(s, p) != s.queue[0]
    ensures InTlb(r, p) && InTlb(r, q)
  {
    StaysInTlb(s, r, q, p);
    Newest(s, r, q);
  }

  /** Once the page of the last fault cannot be displaced, one more fault is enough. */
  lemma LastFault(s: Vm, i: Instr, p: nat, q: nat)
    requires Ready(s, i) && CountClear(s.swapMap) > 1
    requires (p, q) == (i.pc / PAGE_SIZE, i.addr / PAGE_SIZE) || (q, p) == (i.pc / PAGE_SIZE, i.addr / PAGE_SIZE)
    requires FindTlb(s.tlb, p, 0) == s.tlbCounter % TLB_SIZE
    requires Where(s, q) == -1 && Full(s) ==> s.queue != [] && Where(s, p) != s.queue[0]
    ensures Within(s, i, 1)
  {
    AttemptStep(s, i);
    if Attempt(s, i).Faulted? {
      var r := Attempt(s, i).after;
      AttemptKeepsReady(s, i, 1);
      BothInTlb(s, r, p, q);
      AttemptStep(r, i);
    }
  }

  /** The bound: two faults suffice exactly when the code page is not next to go; three always do. */
  lemma TwoFaultsUnlessCodePageNextToGo(s: Vm, i: Instr)
    requires Ready(s, i) && CountClear(s.swapMap) > 2
    ensures Within(s, i, 2) <==> !CodePageNextToGo(s, i)
  {
    var c, d := i.pc / PAGE_SIZE, i.addr / PAGE_SIZE;
    AttemptStep(s, i);
    if Attempt(s, i).Faulted? {
      var r := Attempt(s, i).after;
      AttemptKeepsReady(s, i, 2);
      var p, q := if InTlb(s, c) then d else c, if InTlb(s, c) then c else d;
      assert PageFaultStep(s, r, p);
      Newest(s, r, p);
      if Where(s, p) == -1 {
        if Full(r) {
          JustLoadedIsSafe(s, r, p);
        }
        LastFault(r, i, p, q);
      } else {
        HitKeepsResident(s, r, p, q);
        HitKeepsResident(s, r, p, p);
        if CodePageNextToGo(s, i) {
          CodePageGoes(r, i);
        } else {
          if InTlb(s, c) {
            InTlbIsResident(s, c);
          }
          LastFault(r, i, p, q);
        }
      }
    }
  }

  /** After the hit on the code page, the data page evicts it: a third fault. */
  lemma CodePageGoes(r: Vm, i: Instr)
    requires Ready(r, i) && CountClear(r.swapMap) > 1
    requires InTlb(r, i.pc / PAGE_SIZE) && Full(r) && r.queue != [] && Where(r, i.pc / PAGE_SIZE) == r.queue[0]
    requires Where(r, i.addr / PAGE_SIZE) == -1
    ensures !Within(r, i, 1)
  {
    var c, d := i.pc / PAGE_SIZE, i.addr / PAGE_SIZE;
    if InTlb(r, d) {
      InTlbIsResident(r, d);
    }
    AttemptStep(r, i);
    var t := Attempt(r, i).after;
    AttemptKeepsReady(r, i, 1);
    MissEvictsOldest(r, t, d, c);
    AttemptStep(t, i);
  }

  lemma AtMostThreeFaults(s: Vm, i: Instr)
    requires Ready(s, i) && CountClear(s.swapMap) > 3
    ensures Within(s, i, 3)
  {
    AttemptStep(s, i);
    if Attempt(s, i).Faulted? {
      var r := Attempt(s, i).after;
      AttemptKeepsReady(s, i, 3);
      var c, d := i.pc / PAGE_SIZE, i.addr / PAGE_SIZE;
      var p := if InTlb(s, c) then d else c;
      Newest(s, r, p);
      InTlbIsResident(r, p);
      TwoFaultsUnlessCodePageNextToGo(r, i);
    }
  }
}
