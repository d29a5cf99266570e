/** Paging is transparent: over any run, a load returns the last byte stored at each address, or
    the executable's byte if none was. */
module PagingRuns {
  import opened Bytes
  import opened BitMaps
  import opened Options
  import opened VirtualMemory
  import opened PagingInvariant
  import opened PagingSteps

  // ---------- The initial state ----------

  /** The page-table entries that AddrSpace::AddrSpace fills in; `physicalPage` is left as it was. */
  ghost predicate InitialTable(table: seq<PageEntry>, codeSize: nat, initSize: nat, uninitSize: nat) {
    && |table| == DivRoundUp(codeSize + initSize + uninitSize, PAGE_SIZE) + STACK_PAGES
    && forall i :: 0 <= i < |table| ==>
         && table[i].virtualPage == i && !table[i].valid && table[i].byteOffset == NOFF_HEADER_SIZE + PAGE_SIZE * i
         && table[i].diskLocation == if i < DivRoundUp(codeSize + initSize, PAGE_SIZE) then EXECUTABLE else NEITHER
  }

  ghost predicate Booted(s: Vm, codeSize: nat, initSize: nat, uninitSize: nat) {
    && Shape(s) && s.tlbCounter == -1 && s.queue == []
    && (forall i :: 0 <= i < TLB_SIZE ==> !s.tlb[i].valid)
    && (forall f :: 0 <= f < NUM_PHYS_PAGES ==> !s.ipt[f].valid && !s.ipt[f].readOnly && !s.frameMap[f])
    && (forall i :: 0 <= i < SWAP_SLOTS ==> !s.swapMap[i])
    && InitialTable(s.pageTable, codeSize, initSize, uninitSize)
  }

  lemma BootedIsGood(s: Vm, codeSize: nat, initSize: nat, uninitSize: nat)
    requires Booted(s, codeSize, initSize, uninitSize)
    ensures Inv(s)
  {
  }

  // ---------- Steps ----------

  /** One attempt of a user instruction's or system call's memory access (served by the fault
      handler if it faults; `random` is rand() % NumPhysPages), a switch to another thread of the
      address space, or the page-table growth of a Fork. */
  datatype Op =
    | Load(addr: nat, size: nat, random: nat)
    | Store(addr: nat, data: seq<byte>, random: nat)
    | Switch
    | Extend

  ghost predicate FaultStep(s: Vm, vpn: int, random: nat, r: Vm) {
    && CanFault(s, vpn, random) && TlbInRange(Resident(s, vpn, random).1) && r == Fault(s, vpn, random)
  }

  /** `out` is present when the operation completed. */
  ghost predicate Next(s: Vm, op: Op, out: Option<seq<byte>>, r: Vm) {
    match op
    case Load(addr, size, random) =>
      && size in {1, 2, 4} && (addr + size - 1) / PAGE_SIZE < |s.pageTable|
      && (match Translate(s, addr, size, false)
          case Translated(at, after) =>
            r == after && at + size <= |s.memory| && out == Some(LoadedBytes(s, at, size))
          case Raised(PageFaultException) => FaultStep(s, addr / PAGE_SIZE, random, r) && out == None
          case Raised(_) => r == s && out == None)
    case Store(addr, data, random) =>
      && |data| in {1, 2, 4} && (addr + |data| - 1) / PAGE_SIZE < |s.pageTable|
      && (match Translate(s, addr, |data|, true)
          case Translated(at, after) =>
            at + |data| <= |s.memory| && r == Stored(s, addr, data) && out == Some([])
          case Raised(PageFaultException) => FaultStep(s, addr / PAGE_SIZE, random, r) && out == None
          case Raised(_) => r == s && out == None)
    case Switch => TlbInRange(s) && Shape(s) && r == FlushFrom(s, 0) && out == Some([])
    case Extend => r == Grow(s) && out == Some([])
  }

  /** What the address space holds at `a` after a step, given `was` before it. */
  function Effect(op: Op, out: Option<seq<byte>>, a: nat, was: Option<byte>): Option<byte> {
    if op.Store? && out.Some? && op.addr <= a < op.addr + |op.data| then Some(op.data[a - op.addr]) else was
  }

  /** `r` is good and holds at every address at least what the step leaves there. */
  ghost predicate Tracks(s: Vm, op: Op, out: Option<seq<byte>>, r: Vm)
    requires Inv(s)
  {
    && Inv(r) && |r.pageTable| >= |s.pageTable| && r.executable == s.executable
    && (op.Store? ==> (op.addr + |op.data| - 1) / PAGE_SIZE < |s.pageTable|)
    && (forall a: nat :: a / PAGE_SIZE < |s.pageTable| ==> Keeps(Effect(op, out, a, View(s, a)), View(r, a)))
  }

  lemma RefinesTracks(s: Vm, op: Op, out: Option<seq<byte>>, r: Vm)
    requires Inv(s) && Refines(s, r)
    requires op.Store? ==> out == None && (op.addr + |op.data| - 1) / PAGE_SIZE < |s.pageTable|
    ensures Tracks(s, op, out, r)
  {
  }

  lemma WritesTracks(s: Vm, op: Op, out: Option<seq<byte>>, r: Vm)
    requires Inv(s) && op.Store? && out.Some? && Writes(s, r, op.addr, op.data)
    requires (op.addr + |op.data| - 1) / PAGE_SIZE < |s.pageTable|
    ensures Tracks(s, op, out, r)
  {
  }

  lemma NextLoad(s: Vm, op: Op, out: Option<seq<byte>>, r: Vm)
    requires Inv(s) && Next(s, op, out, r) && op.Load?
    ensures Tracks(s, op, out, r)
  {
    match Translate(s, op.addr, op.size, false)
    case Translated(_, _) => TranslateRefines(s, op.addr, op.size, false);
    case Raised(PageFaultException) => FaultRefines(s, op.addr / PAGE_SIZE, op.random);
    case Raised(_) => SameMemoryRefines(s, s);
  }

  lemma NextStore(s: Vm, op: Op, out: Option<seq<byte>>, r: Vm)
    requires Inv(s) && Next(s, op, out, r) && op.Store?
    ensures Tracks(s, op, out, r)
  {
    match Translate(s, op.addr, |op.data|, true)
    case Translated(_, _) =>
      StoreRefines(s, op.addr, op.data);
      WritesTracks(s, op, out, r);
    case Raised(PageFaultException) =>
      FaultRefines(s, op.addr / PAGE_SIZE, op.random);
      RefinesTracks(s, op, out, r);
    case Raised(_) =>
      SameMemoryRefines(s, s);
      RefinesTracks(s, op, out, r);
  }

  /** Every step keeps the invariant and has on memory exactly the effect a flat store would. */
  lemma NextTracks(s: Vm, op: Op, out: Option<seq<byte>>, r: Vm)
    requires Inv(s) && Next(s, op, out, r)
    ensures Tracks(s, op, out, r)
  {
    match op
    case Load(_, _, _) => NextLoad(s, op, out, r);
    case Store(_, _, _) => NextStore(s, op, out, r);
    case Switch => FlushRefines(s, 0); RefinesTracks(s, op, out, r);
    case Extend => GrowRefines(s); RefinesTracks(s, op, out, r);
  }

  /** No step is stuck while the accessed page exists and a swap slot is left. */
  lemma NextExists(s: Vm, op: Op) returns (out: Option<seq<byte>>, r: Vm)
    requires Inv(s) && FirstClear(s.swapMap, 0) != -1
    requires op.Load? ==> op.size in {1, 2, 4} && (op.addr + op.size - 1) / PAGE_SIZE < |s.pageTable| && op.random < NUM_PHYS_PAGES
    requires op.Store? ==>
               |op.data| in {1, 2, 4} && (op.addr + |op.data| - 1) / PAGE_SIZE < |s.pageTable| && op.random < NUM_PHYS_PAGES
    ensures Next(s, op, out, r)
  {
    match op
    case Load(addr, size, random) =>
      match Translate(s, addr, size, false) {
        case Translated(at, after) =>
          LoadIsView(s, addr, size, 0);
          out, r := Some(LoadedBytes(s, at, size)), after;
        case Raised(e) =>
          out, r := None, s;
          if e.PageFaultException? {
            FaultIsServable(s, addr / PAGE_SIZE, random);
            FaultRefines(s, addr / PAGE_SIZE, random);
            r := Fault(s, addr / PAGE_SIZE, random);
          }
      }
    case Store(addr, data, random) =>
      match Translate(s, addr, |data|, true) {
        case Translated(at, after) =>
          StoreRefines(s, addr, data);
          out, r := Some([]), Stored(s, addr, data);
        case Raised(e) =>
          out, r := None, s;
          if e.PageFaultException? {
            FaultIsServable(s, addr / PAGE_SIZE, random);
            FaultRefines(s, addr / PAGE_SIZE, random);
            r := Fault(s, addr / PAGE_SIZE, random);
          }
      }
    case Switch =>
      FlushRefines(s, 0);
      out, r := Some([]), FlushFrom(s, 0);
    case Extend =>
      out, r := Some([]), Grow(s);
  }

  /** After a page fault the retried access is translated: the loop in copyin repeats once. */
  lemma RetrySucceeds(s: Vm, addr: nat, size: nat, writing: bool, random: nat)
    requires Inv(s) && Translate(s, addr, size, writing) == Raised(PageFaultException)
    requires CanFault(s, addr / PAGE_SIZE, random) && TlbInRange(Resident(s, addr / PAGE_SIZE, random).1)
    ensures Translate(Fault(s, addr / PAGE_SIZE, random), addr, size, writing).Translated?
  {
    var vpn := addr / PAGE_SIZE;
    FaultRefines(s, vpn, random);
    var r := Fault(s, vpn, random);
    assert TlbOk(r, FindTlb(r.tlb, vpn, 0), -1);
  }

  /** A fault uses at most one swap slot. */
  lemma FaultUsesOneSlot(s: Vm, vpn: int, random: nat)
    requires CanFault(s, vpn, random) && TlbInRange(Resident(s, vpn, random).1)
    ensures CountClear(Fault(s, vpn, random).swapMap) >= CountClear(s.swapMap) - 1
  {
    if FindFrame(s.ipt, vpn, s.processId, 0) == -1 && FirstClear(s.frameMap, 0) == -1 && MustSwap(s, Victim(s, random)) {
      FirstClearIsLeast(s.swapMap, 0);
      CountClearUpdate(s.swapMap, FirstClear(s.swapMap, 0), true);
    }
  }

  // ---------- Runs ----------

  ghost predicate Run(ss: seq<Vm>, ops: seq<Op>, outs: seq<Option<seq<byte>>>) {
    && |ss| == |ops| + 1 && |outs| == |ops|
    && forall i :: 0 <= i < |ops| ==> Next(ss[i], ops[i], outs[i], ss[i + 1])
  }

  /** Flat memory after the completed stores among the first `k` operations. */
  function Expected(executable: seq<byte>, backedPages: nat, ops: seq<Op>, outs: seq<Option<seq<byte>>>, a: nat, k: nat)
    : Option<byte>
    requires |outs| == |ops| && k <= |ops|
  {
    if k == 0 then
      if a / PAGE_SIZE < backedPages && NOFF_HEADER_SIZE + a < |executable| then Some(executable[NOFF_HEADER_SIZE + a]) else None
    else
      Effect(ops[k - 1], outs[k - 1], a, Expected(executable, backedPages, ops, outs, a, k - 1))
  }

  lemma {:induction false} RunIsGood(ss: seq<Vm>, ops: seq<Op>, outs: seq<Option<seq<byte>>>, k: nat)
    requires Run(ss, ops, outs) && Inv(ss[0]) && k <= |ops|
    ensures Inv(ss[k]) && |ss[k].pageTable| >= |ss[0].pageTable|
    ensures k < |ops| ==> Tracks(ss[k], ops[k], outs[k], ss[k + 1])
  {
    if k > 0 {
      RunIsGood(ss, ops, outs, k - 1);
    }
    if k < |ops| {
      NextTracks(ss[k], ops[k], outs[k], ss[k + 1]);
    }
  }

  /** `e` is a correct account of the byte at `a`; nothing is defined beyond the last page. */
  ghost predicate Accounts(s: Vm, a: nat, e: Option<byte>) {
    Inv(s) && if a / PAGE_SIZE < |s.pageTable| then Keeps(e, View(s, a)) else e == None
  }

  lemma TracksAccounts(s: Vm, op: Op, out: Option<seq<byte>>, r: Vm, a: nat, e: Option<byte>)
    requires Accounts(s, a, e) && Tracks(s, op, out, r)
    ensures Accounts(r, a, Effect(op, out, a, e))
  {
  }

  lemma BootAccounts(s: Vm, codeSize: nat, initSize: nat, uninitSize: nat, a: nat)
    requires Booted(s, codeSize, initSize, uninitSize)
    ensures Accounts(s, a, Expected(s.executable, DivRoundUp(codeSize + initSize, PAGE_SIZE), [], [], a, 0))
  {
  }

  lemma AccountsInv(s: Vm, a: nat, e: Option<byte>)
    requires Accounts(s, a, e)
    ensures Inv(s)
  {
    hide Inv;
  }

  lemma ExpectedUnfolds(executable: seq<byte>, backedPages: nat, ops: seq<Op>, outs: seq<Option<seq<byte>>>, a: nat, k: nat)
    requires |outs| == |ops| && 0 < k <= |ops|
    ensures Expected(executable, backedPages, ops, outs, a, k) ==
            Effect(ops[k - 1], outs[k - 1], a, Expected(executable, backedPages, ops, outs, a, k - 1))
  {
  }

  lemma {:induction false} RunTracksFlatMemory(ss: seq<Vm>, ops: seq<Op>, outs: seq<Option<seq<byte>>>,
                                               executable: seq<byte>, backedPages: nat, a: nat, k: nat)
    requires Run(ss, ops, outs) && k <= |ops| == |outs| && |ss| == |ops| + 1
    requires Accounts(ss[0], a, Expected(executable, backedPages, ops, outs, a, 0))
    ensures Accounts(ss[k], a, Expected(executable, backedPages, ops, outs, a, k))
  {
    hide *;
    AccountsInv(ss[0], a, Expected(executable, backedPages, ops, outs, a, 0));
    if k > 0 {
      ExpectedUnfolds(executable, backedPages, ops, outs, a, k);
      RunTracksFlatMemory(ss, ops, outs, executable, backedPages, a, k - 1);
      RunIsGood(ss, ops, outs, k - 1);
      TracksAccounts(ss[k - 1], ops[k - 1], outs[k - 1], ss[k], a, Expected(executable, backedPages, ops, outs, a, k - 1));
    }
  }

  /** The main result, for FIFO and for random replacement alike. */
  lemma LoadReturnsLastStore(ss: seq<Vm>, ops: seq<Op>, outs: seq<Option<seq<byte>>>,
                             codeSize: nat, initSize: nat, uninitSize: nat, k: nat, j: nat)
    requires Run(ss, ops, outs) && Booted(ss[0], codeSize, initSize, uninitSize)
    requires k < |ops| && ops[k].Load? && outs[k].Some? && j < ops[k].size
    ensures |outs[k].value| == ops[k].size
    ensures var e := Expected(ss[0].executable, DivRoundUp(codeSize + initSize, PAGE_SIZE), ops, outs, ops[k].addr + j, k);
            e.Some? ==> outs[k].value[j] == e.value
  {
    BootAccounts(ss[0], codeSize, initSize, uninitSize, ops[k].addr + j);
    RunTracksFlatMemory(ss, ops, outs, ss[0].executable, DivRoundUp(codeSize + initSize, PAGE_SIZE), ops[k].addr + j, k);
    assert Next(ss[k], ops[k], outs[k], ss[k + 1]);
    LoadIsView(ss[k], ops[k].addr, ops[k].size, j);
  }
}
