/** Each paging step keeps the invariant and every defined byte of memory; a store changes
    exactly the bytes it names. */
module PagingSteps {
  import opened Bytes
  import opened BitMaps
  import opened Options
  import opened VirtualMemory
  import opened PagingInvariant

  /** The state `r` is good, has the pages of `s` and keeps its defined bytes. */
  ghost predicate Refines(s: Vm, r: Vm)
    requires Inv(s)
  {
    && Inv(r) && |r.pageTable| >= |s.pageTable| && r.executable == s.executable
    && (forall a: nat :: a / PAGE_SIZE < |s.pageTable| ==> Keeps(View(s, a), View(r, a)))
  }

  /** `r` has the frames of `s`: the same page in each, at least as dirty, and the same bytes in
      every frame that is still clean. Its page table may have grown. */
  ghost predicate SameFrames(s: Vm, r: Vm, h: int) {
    && Shape(s) && Shape(r)
    && r == s.(tlb := r.tlb, ipt := r.ipt, memory := r.memory, pageTable := r.pageTable, queue := r.queue,
               tlbCounter := r.tlbCounter)
    && (forall f :: 0 <= f < |s.ipt| ==> r.ipt[f] == s.ipt[f].(dirty := r.ipt[f].dirty))
    && |s.pageTable| <= |r.pageTable| && s.pageTable == r.pageTable[..|s.pageTable|]
    && (forall p :: |s.pageTable| <= p < |r.pageTable| ==> r.pageTable[p].diskLocation == NEITHER)
    && (forall f :: InUse(s, f, h) && HoldsPage(s, f) && HoldsPage(r, f) ==> (MustSwap(s, f) ==> MustSwap(r, f)))
    && (forall f :: InUse(s, f, h) && HoldsPage(r, f) && !MustSwap(r, f) ==> Frame(r.memory, f) == Frame(s.memory, f))
  }

  lemma SameFramesKeep(s: Vm, r: Vm, h: int)
    requires BaseInv(s, h) && SameFrames(s, r, h) && TlbsOk(r, h) && TlbDistinct(r)
    ensures BaseInv(r, h)
  {
    assert forall f :: InUse(r, f, h) <==> InUse(s, f, h);
    assert forall p :: 0 <= p < |s.pageTable| ==> r.pageTable[p] == s.pageTable[p];
    forall f | InUse(r, f, h)
      ensures FrameOk(r, f)
    {
      assert FrameOk(s, f);
    }
    forall p | 0 <= p < |r.pageTable|
      ensures PageOk(r, p)
    {
      assert p < |s.pageTable| ==> PageOk(s, p);
    }
    forall f | InUse(r, f, h) && !MustSwap(r, f)
      ensures DiskCopyIs(r, r.ipt[f].virtualPage, Frame(r.memory, f))
    {
      assert FrameOk(s, f) && !MustSwap(s, f);
      assert DiskCopyIs(s, s.ipt[f].virtualPage, Frame(s.memory, f));
    }
  }

  lemma SameFramesView(s: Vm, r: Vm, a: nat)
    requires Inv(s) && Inv(r) && SameFrames(s, r, -1) && a / PAGE_SIZE < |s.pageTable|
    ensures FindFrame(r.ipt, a / PAGE_SIZE, r.processId, 0) == FindFrame(s.ipt, a / PAGE_SIZE, s.processId, 0)
    ensures var f := FindFrame(s.ipt, a / PAGE_SIZE, s.processId, 0);
            f == -1 || Frame(r.memory, f)[a % PAGE_SIZE] == Frame(s.memory, f)[a % PAGE_SIZE] ==> Keeps(View(s, a), View(r, a))
  {
    var f := FindFrame(s.ipt, a / PAGE_SIZE, s.processId, 0);
    assert r.pageTable[a / PAGE_SIZE] == s.pageTable[a / PAGE_SIZE];
    assert PageOk(s, a / PAGE_SIZE);
    if f != -1 {
      FoundFrame(r, f);
    } else {
      AbsentPage(s, a / PAGE_SIZE);
      NotFound(r, a / PAGE_SIZE, -1);
    }
  }

  /** The usual case: memory itself is untouched. */
  lemma SameMemoryRefines(s: Vm, r: Vm)
    requires Inv(s) && SameFrames(s, r, -1) && TlbsOk(r, -1) && TlbDistinct(r) && r.memory == s.memory && r.queue == s.queue
    ensures Refines(s, r)
  {
    SameFramesKeep(s, r, -1);
    assert forall f :: InUse(r, f, -1) <==> InUse(s, f, -1);
    forall a: nat | a / PAGE_SIZE < |s.pageTable|
      ensures Keeps(View(s, a), View(r, a))
    {
      SameFramesView(s, r, a);
    }
  }

  lemma SameTlb(s: Vm, r: Vm, h: int)
    requires TlbsOk(s, h) && r.tlb == s.tlb && r.ipt == s.ipt
    ensures TlbsOk(r, h)
  {
    assert forall i :: 0 <= i < |r.tlb| ==> TlbOk(s, i, h) ==> TlbOk(r, i, h);
  }

  lemma CounterIrrelevant(s: Vm, c: int)
    requires Inv(s) && c >= -1
    ensures Refines(s, s.(tlbCounter := c))
  {
    SameTlb(s, s.(tlbCounter := c), -1);
    SameMemoryRefines(s, s.(tlbCounter := c));
  }

  // ---------- Bringing a page in ----------

  lemma AllLoaded(s: Vm)
    requires Inv(s) && FirstClear(s.frameMap, 0) == -1
    ensures forall f :: 0 <= f < NUM_PHYS_PAGES ==> InUse(s, f, -1)
    ensures s.fifo ==> s.queue != [] && InUse(s, s.queue[0], -1)
  {
    FirstClearIsLeast(s.frameMap, 0);
    if s.fifo {
      assert InUse(s, 0, -1);
      assert 0 in s.queue;
      assert s.queue[0] in s.queue;
    }
  }

  /** With a swap slot left, any fault on a page of the address space can be served. */
  lemma FaultIsServable(s: Vm, vpn: int, random: nat)
    requires Inv(s) && 0 <= vpn < |s.pageTable| && random < NUM_PHYS_PAGES && FirstClear(s.swapMap, 0) != -1
    ensures CanFault(s, vpn, random)
  {
    if FirstClear(s.frameMap, 0) == -1 {
      AllLoaded(s);
      assert FrameOk(s, Victim(s, random));
    }
  }

  lemma AbsentPage(s: Vm, vpn: int)
    requires Inv(s) && FindFrame(s.ipt, vpn, s.processId, 0) == -1
    ensures Absent(s, vpn, -1)
  {
  }

  /** The state with a free frame at hand: marked, or emptied by eviction. */
  ghost function Hole(s: Vm, random: nat): (r: (nat, Vm))
    requires Shape(s) && random < NUM_PHYS_PAGES
    requires FirstClear(s.frameMap, 0) == -1 ==>
               && HoldsPage(s, Victim(s, random))
               && (MustSwap(s, Victim(s, random)) ==> FirstClear(s.swapMap, 0) != -1)
    ensures r.0 < NUM_PHYS_PAGES && Shape(r.1)
  {
    var free := FirstClear(s.frameMap, 0);
    if free != -1 then (free, s.(frameMap := s.frameMap[free := true]))
    else (Victim(s, random), Evict(s.(queue := if s.fifo && s.queue != [] then s.queue[1..] else s.queue), Victim(s, random)))
  }

  lemma QueueIrrelevant(s: Vm, h: int, queue: seq<nat>)
    requires BaseInv(s, h)
    ensures BaseInv(s.(queue := queue), h)
  {
    var r := s.(queue := queue);
    SameTlb(s, r, h);
    SameFramesKeep(s, r, h);
  }

  lemma HoleIsGood(s: Vm, vpn: nat, random: nat)
    requires Inv(s) && CanFault(s, vpn, random) && FindFrame(s.ipt, vpn, s.processId, 0) == -1
    ensures var (h, r) := Hole(s, random);
            BaseInv(r, h) && QueueOk(r, h) && Absent(r, vpn, h) && |r.pageTable| == |s.pageTable| && r.executable == s.executable
  {
    var (h, r) := Hole(s, random);
    AbsentPage(s, vpn);
    if FirstClear(s.frameMap, 0) != -1 {
      FirstClearIsLeast(s.frameMap, 0);
      TakeFree(s, h);
      assert forall f :: InUse(r, f, h) <==> InUse(s, f, -1);
    } else {
      AllLoaded(s);
      var s1 := s.(queue := if s.fifo then s.queue[1..] else s.queue);
      QueueIrrelevant(s, -1, s1.queue);
      EvictKeepsClean(s1, h);
      assert forall f :: InUse(r, f, h) <==> InUse(s, f, -1) && f != h;
    }
  }

  /** Where address `a` is found once frame `h` is free: on disk if its page was in `h`. */
  ghost predicate FoundPast(s: Vm, r: Vm, h: nat, a: nat)
    requires Inv(s) && BaseInv(r, h) && a / PAGE_SIZE < |s.pageTable| <= |r.pageTable|
  {
    var f := FindFrame(s.ipt, a / PAGE_SIZE, s.processId, 0);
    var g := if f == h then -1 else f;
    && (g != -1 ==> InUse(r, g, h) && r.ipt[g].virtualPage == a / PAGE_SIZE)
    && (g == -1 ==> Absent(r, a / PAGE_SIZE, h))
    && Keeps(View(s, a), ByteAt(r, a, g))
  }

  lemma FreeFrameKeepsView(s: Vm, h: nat, r: Vm, a: nat)
    requires Inv(s) && a / PAGE_SIZE < |s.pageTable| && h < NUM_PHYS_PAGES && !s.frameMap[h]
    requires r == s.(frameMap := s.frameMap[h := true]) && BaseInv(r, h)
    ensures FoundPast(s, r, h, a)
  {
  }

  lemma EvictedFrameKeepsView(s: Vm, h: nat, r: Vm, a: nat)
    requires Inv(s) && a / PAGE_SIZE < |s.pageTable| && InUse(s, h, -1) && HoldsPage(s, h)
    requires MustSwap(s, h) ==> FirstClear(s.swapMap, 0) != -1
    requires r.queue == s.queue || BaseInv(s.(queue := r.queue), -1)
    requires r == Evict(s.(queue := r.queue), h) && BaseInv(r, h)
    ensures FoundPast(s, r, h, a)
  {
    var s1 := s.(queue := r.queue);
    var p := a / PAGE_SIZE;
    var f := FindFrame(s.ipt, p, s.processId, 0);
    EvictKeepsView(s1, h, a, f);
    assert MustSwap(s1, h) <==> MustSwap(s, h);
    assert PageOk(s, p);
    if f == -1 || f == h {
      EvictedAbsent(s, h, r, p);
    } else {
      assert MustSwap(s1, f) <==> MustSwap(s, f);
    }
  }

  lemma EvictedAbsent(s: Vm, h: nat, r: Vm, p: nat)
    requires Inv(s) && p < |s.pageTable| && InUse(s, h, -1) && HoldsPage(s, h)
    requires MustSwap(s, h) ==> FirstClear(s.swapMap, 0) != -1
    requires r == Evict(s.(queue := r.queue), h) && (FindFrame(s.ipt, p, s.processId, 0) == -1 || FindFrame(s.ipt, p, s.processId, 0) == h)
    ensures Absent(r, p, h)
  {
    if FindFrame(s.ipt, p, s.processId, 0) == -1 {
      AbsentPage(s, p);
    }
    forall g | InUse(r, g, h)
      ensures r.ipt[g].virtualPage != p
    {
      assert InUse(s, g, -1) && InUse(s, h, -1);
    }
  }

  lemma HoleKeepsView(s: Vm, vpn: nat, random: nat, a: nat)
    requires Inv(s) && CanFault(s, vpn, random) && FindFrame(s.ipt, vpn, s.processId, 0) == -1 && a / PAGE_SIZE < |s.pageTable|
    ensures var (h, r) := Hole(s, random);
            BaseInv(r, h) && |r.pageTable| == |s.pageTable| && FoundPast(s, r, h, a)
  {
    var (h, r) := Hole(s, random);
    HoleIsGood(s, vpn, random);
    if FirstClear(s.frameMap, 0) != -1 {
      FirstClearIsLeast(s.frameMap, 0);
      FreeFrameKeepsView(s, h, r, a);
    } else {
      AllLoaded(s);
      QueueIrrelevant(s, -1, r.queue);
      EvictedFrameKeepsView(s, h, r, a);
    }
  }

  lemma MissIsLoadIntoHole(s: Vm, vpn: int, random: nat)
    requires CanFault(s, vpn, random) && FindFrame(s.ipt, vpn, s.processId, 0) == -1
    ensures Miss(s, vpn, random) == (Hole(s, random).0, LoadPage(Hole(s, random).1, vpn, Hole(s, random).0))
  {
  }

  /** handleIPTMiss keeps the invariant and memory, and leaves the page resident. */
  lemma MissRefines(s: Vm, vpn: nat, random: nat)
    requires Inv(s) && CanFault(s, vpn, random) && FindFrame(s.ipt, vpn, s.processId, 0) == -1
    ensures var (f, r) := Miss(s, vpn, random);
            Refines(s, r) && InUse(r, f, -1) && r.ipt[f].virtualPage == vpn && FindTlb(r.tlb, vpn, 0) == -1
  {
    var (h, s1) := Hole(s, random);
    var (f, r) := Miss(s, vpn, random);
    MissIsLoadIntoHole(s, vpn, random);
    HoleIsGood(s, vpn, random);
    LoadKeepsClean(s1, vpn, h);
    assert forall g :: InUse(r, g, -1) <==> g == h || InUse(s1, g, h);
    assert QueueOk(r, -1);
    AbsentFromTlb(s1, vpn, h);
    forall a: nat | a / PAGE_SIZE < |s.pageTable|
      ensures Keeps(View(s, a), View(r, a))
    {
      MissKeepsView(s, vpn, random, a);
    }
  }

  lemma MissKeepsView(s: Vm, vpn: nat, random: nat, a: nat)
    requires Inv(s) && CanFault(s, vpn, random) && FindFrame(s.ipt, vpn, s.processId, 0) == -1 && a / PAGE_SIZE < |s.pageTable|
    requires Inv(Miss(s, vpn, random).1) && |Miss(s, vpn, random).1.pageTable| >= |s.pageTable|
    ensures Keeps(View(s, a), View(Miss(s, vpn, random).1, a))
  {
    var (h, s1) := Hole(s, random);
    MissIsLoadIntoHole(s, vpn, random);
    HoleIsGood(s, vpn, random);
    HoleKeepsView(s, vpn, random, a);
    var g := FindFrame(s.ipt, a / PAGE_SIZE, s.processId, 0);
    LoadKeepsView(s1, vpn, h, a, if g == h then -1 else g);
  }

  // ---------- TLB replacement and flushing ----------

  lemma LoadTlbRefines(s: Vm, f: nat, k: nat)
    requires Inv(s) && InUse(s, f, -1) && FindTlb(s.tlb, s.ipt[f].virtualPage, 0) == -1 && k < TLB_SIZE
    requires s.tlb[k].valid ==> 0 <= s.tlb[k].physicalPage < NUM_PHYS_PAGES
    ensures Refines(s, LoadTlb(s, f, k))
  {
    var r := LoadTlb(s, f, k);
    var gone := s.tlb[k];
    assert TlbOk(s, k, -1) && FrameOk(s, f);
    forall i | 0 <= i < |r.tlb|
      ensures TlbOk(r, i, -1)
    {
      assert TlbOk(s, i, -1);
    }
    forall g | InUse(s, g, -1) && HoldsPage(s, g) && MustSwap(s, g)
      ensures MustSwap(r, g)
    {
      var q := s.ipt[g].virtualPage;
      if DirtyInTlb(s.tlb, q) {
        var i :| 0 <= i < |s.tlb| && Matches(s.tlb[i], q) && s.tlb[i].dirty;
        assert TlbOk(s, i, -1);
        assert i != k ==> Matches(r.tlb[i], q) && r.tlb[i].dirty;
        assert i == k ==> gone.physicalPage == g;
      }
    }
    SameMemoryRefines(s, r);
  }

  lemma ResidentRefines(s: Vm, vpn: nat, random: nat)
    requires Inv(s) && CanFault(s, vpn, random) && FindTlb(s.tlb, vpn, 0) == -1
    ensures var (f, r) := Resident(s, vpn, random);
            && Refines(s, r) && TlbInRange(r) && r.tlbCounter == s.tlbCounter + 1
            && InUse(r, f, -1) && r.ipt[f].virtualPage == vpn && FindTlb(r.tlb, vpn, 0) == -1
  {
    var s1 := s.(tlbCounter := s.tlbCounter + 1);
    CounterIrrelevant(s, s.tlbCounter + 1);
    var (f, r) := Resident(s, vpn, random);
    if FindFrame(s.ipt, vpn, s.processId, 0) == -1 {
      assert CanFault(s1, vpn, random);
      MissRefines(s1, vpn, random);
    }
    forall i | 0 <= i < |r.tlb| && r.tlb[i].valid
      ensures 0 <= r.tlb[i].physicalPage < NUM_PHYS_PAGES
    {
      assert TlbOk(r, i, -1);
    }
  }

  /** HandlePageFault keeps the invariant and memory, and the retried access finds its page. */
  lemma FaultRefines(s: Vm, vpn: nat, random: nat)
    requires Inv(s) && CanFault(s, vpn, random) && FindTlb(s.tlb, vpn, 0) == -1
    ensures TlbInRange(Resident(s, vpn, random).1)
    ensures Refines(s, Fault(s, vpn, random)) && FindTlb(Fault(s, vpn, random).tlb, vpn, 0) != -1
  {
    ResidentRefines(s, vpn, random);
    var (f, r) := Resident(s, vpn, random);
    var k := r.tlbCounter % TLB_SIZE;
    LoadTlbRefines(r, f, k);
    RefinesTransitive(s, r, LoadTlb(r, f, k));
    assert Matches(LoadTlb(r, f, k).tlb[k], vpn);
  }

  lemma RefinesTransitive(s: Vm, t: Vm, r: Vm)
    requires Inv(s) && Refines(s, t) && Refines(t, r)
    ensures Refines(s, r)
  {
  }

  ghost function FlushOne(s: Vm, i: nat): (r: Vm)
    requires Inv(s) && i < TLB_SIZE
  {
    var e := s.tlb[i];
    assert TlbOk(s, i, -1);
    var ipt := if e.valid then s.ipt[e.physicalPage := s.ipt[e.physicalPage].(dirty := e.dirty)] else s.ipt;
    s.(ipt := ipt, tlb := s.tlb[i := e.(valid := false)])
  }

  lemma FlushOneRefines(s: Vm, i: nat)
    requires Inv(s) && i < TLB_SIZE
    ensures Refines(s, FlushOne(s, i))
  {
    var r := FlushOne(s, i);
    var gone := s.tlb[i];
    assert TlbOk(s, i, -1);
    forall j | 0 <= j < |r.tlb|
      ensures TlbOk(r, j, -1)
    {
      assert TlbOk(s, j, -1);
    }
    forall g | InUse(s, g, -1) && HoldsPage(s, g) && MustSwap(s, g)
      ensures MustSwap(r, g)
    {
      var q := s.ipt[g].virtualPage;
      if DirtyInTlb(s.tlb, q) {
        var j :| 0 <= j < |s.tlb| && Matches(s.tlb[j], q) && s.tlb[j].dirty;
        assert TlbOk(s, j, -1);
        assert j != i ==> Matches(r.tlb[j], q) && r.tlb[j].dirty;
        assert j == i ==> gone.physicalPage == g;
      }
    }
    SameMemoryRefines(s, r);
  }

  ghost predicate TlbEmptyBelow(s: Vm, i: nat) {
    forall j :: 0 <= j < i && j < |s.tlb| ==> !s.tlb[j].valid
  }

  /** SaveState and RestoreState: the TLB is emptied, and no dirty bit or byte is lost. */
  lemma {:induction false} FlushRefines(s: Vm, i: nat)
    requires Inv(s) && i <= TLB_SIZE && TlbEmptyBelow(s, i)
    ensures TlbInRange(s)
    ensures Refines(s, FlushFrom(s, i)) && TlbEmptyBelow(FlushFrom(s, i), TLB_SIZE)
    decreases TLB_SIZE - i
  {
    forall j | 0 <= j < |s.tlb| && s.tlb[j].valid
      ensures 0 <= s.tlb[j].physicalPage < NUM_PHYS_PAGES
    {
      assert TlbOk(s, j, -1);
    }
    if i < TLB_SIZE {
      FlushOneRefines(s, i);
      FlushRefines(FlushOne(s, i), i + 1);
      RefinesTransitive(s, FlushOne(s, i), FlushFrom(s, i));
    } else {
      SameMemoryRefines(s, s);
    }
  }

  /** NewPageTable adds pages without a disk location and touches no byte. */
  lemma GrowRefines(s: Vm)
    requires Inv(s)
    ensures Refines(s, Grow(s)) && |Grow(s).pageTable| == |s.pageTable| + 8
  {
    var r := Grow(s);
    assert forall p :: |s.pageTable| <= p < |r.pageTable| ==> r.pageTable[p] == NewStackPage(p);
    SameTlb(s, r, -1);
    SameMemoryRefines(s, r);
  }

  // ---------- Loads and stores ----------

  ghost predicate Access(s: Vm, addr: nat, size: nat, writing: bool) {
    size in {1, 2, 4} && (addr + size - 1) / PAGE_SIZE < |s.pageTable| && Translate(s, addr, size, writing).Translated?
  }

  /** An aligned access stays within one page. */
  lemma AccessInPage(s: Vm, addr: nat, size: nat, writing: bool)
    requires Access(s, addr, size, writing)
    ensures addr % PAGE_SIZE + size <= PAGE_SIZE
  {
  }

  lemma Aligned(addr: nat, size: nat)
    requires size in {1, 2, 4} && (size == 4 ==> addr % 4 == 0) && (size == 2 ==> addr % 2 == 0)
    ensures addr % PAGE_SIZE + size <= PAGE_SIZE
  {
    var q, o := addr / PAGE_SIZE, addr % PAGE_SIZE;
    if size == 4 {
      assert o == 4 * (addr / 4 - 32 * q);
    } else if size == 2 {
      assert o == 2 * (addr / 2 - 64 * q);
    }
  }

  /** A translated access goes to the frame that holds the page. */
  lemma TranslatedFrame(s: Vm, addr: nat, size: nat, writing: bool)
    requires Inv(s) && Access(s, addr, size, writing)
    ensures var f := FindFrame(s.ipt, addr / PAGE_SIZE, s.processId, 0);
            f != -1 && InUse(s, f, -1) && Translate(s, addr, size, writing).physAddr == PAGE_SIZE * f + addr % PAGE_SIZE
  {
    var i := FindTlb(s.tlb, addr / PAGE_SIZE, 0);
    assert TlbOk(s, i, -1);
    FoundFrame(s, s.tlb[i].physicalPage);
  }

  /** Setting use and dirty bits keeps memory; a page becomes dirty only by a write. */
  lemma TranslateRefines(s: Vm, addr: nat, size: nat, writing: bool)
    requires Inv(s) && Access(s, addr, size, writing)
    ensures Refines(s, Translate(s, addr, size, writing).after)
    ensures var f := FindFrame(s.ipt, addr / PAGE_SIZE, s.processId, 0); var r := Translate(s, addr, size, writing).after;
            f != -1 && r == s.(tlb := r.tlb) && InUse(r, f, -1) && r.ipt[f].virtualPage == addr / PAGE_SIZE
            && (writing ==> MustSwap(r, f))
  {
    var r := Translate(s, addr, size, writing).after;
    var i := FindTlb(s.tlb, addr / PAGE_SIZE, 0);
    TranslatedFrame(s, addr, size, writing);
    assert TlbOk(s, i, -1);
    forall j | 0 <= j < |r.tlb|
      ensures TlbOk(r, j, -1)
    {
      assert TlbOk(s, j, -1);
    }
    forall f | InUse(s, f, -1) && HoldsPage(s, f) && MustSwap(s, f)
      ensures MustSwap(r, f)
    {
      if DirtyInTlb(s.tlb, s.ipt[f].virtualPage) {
        var j :| 0 <= j < |s.tlb| && Matches(s.tlb[j], s.ipt[f].virtualPage) && s.tlb[j].dirty;
        assert Matches(r.tlb[j], s.ipt[f].virtualPage) && r.tlb[j].dirty;
      }
    }
    if writing {
      assert Matches(r.tlb[i], addr / PAGE_SIZE) && r.tlb[i].dirty;
    }
    SameMemoryRefines(s, r);
  }

  /** ReadMem on a translated address. */
  function LoadedBytes(s: Vm, physAddr: nat, size: nat): (bytes: seq<byte>)
    requires physAddr + size <= |s.memory|
    ensures |bytes| == size
  {
    s.memory[physAddr..physAddr + size]
  }

  /** A load returns the byte that memory holds at each address, wherever it is defined. */
  lemma LoadIsView(s: Vm, addr: nat, size: nat, j: nat)
    requires Inv(s) && Access(s, addr, size, false) && j < size
    ensures Translate(s, addr, size, false).physAddr + size <= MEMORY_SIZE && (addr + j) / PAGE_SIZE < |s.pageTable|
    ensures View(s, addr + j).Some? ==>
              LoadedBytes(s, Translate(s, addr, size, false).physAddr, size)[j] == View(s, addr + j).value
  {
    AccessInPage(s, addr, size, false);
    TranslatedFrame(s, addr, size, false);
    var f := FindFrame(s.ipt, addr / PAGE_SIZE, s.processId, 0);
    assert Frame(s.memory, f)[addr % PAGE_SIZE + j] == s.memory[PAGE_SIZE * f + addr % PAGE_SIZE + j];
  }

  /** WriteMem on a translated address. */
  function Stored(s: Vm, addr: nat, data: seq<byte>): (r: Vm)
    requires Translate(s, addr, |data|, true).Translated?
    requires Translate(s, addr, |data|, true).physAddr + |data| <= |s.memory|
  {
    var t := Translate(s, addr, |data|, true);
    t.after.(memory := StoreBytes(s.memory, t.physAddr, data))
  }

  lemma StoreFits(s: Vm, addr: nat, data: seq<byte>)
    requires Inv(s) && Access(s, addr, |data|, true)
    ensures Translate(s, addr, |data|, true).physAddr + |data| <= MEMORY_SIZE
  {
    AccessInPage(s, addr, |data|, true);
    TranslatedFrame(s, addr, |data|, true);
    hide Inv, Access, Translate, FindFrame;
  }

  lemma StoredFrame(s: Vm, addr: nat, data: seq<byte>, f: nat, g: nat)
    requires Shape(s) && f < NUM_PHYS_PAGES && g < NUM_PHYS_PAGES && addr % PAGE_SIZE + |data| <= PAGE_SIZE
    ensures Frame(StoreBytes(s.memory, PAGE_SIZE * f + addr % PAGE_SIZE, data), g) ==
            if g == f then StoreBytes(Frame(s.memory, f), addr % PAGE_SIZE, data) else Frame(s.memory, g)
  {
    var m := StoreBytes(s.memory, PAGE_SIZE * f + addr % PAGE_SIZE, data);
    forall k | 0 <= k < PAGE_SIZE
      ensures Frame(m, g)[k] == (if g == f then StoreBytes(Frame(s.memory, f), addr % PAGE_SIZE, data) else Frame(s.memory, g))[k]
    {
      assert Frame(m, g)[k] == m[PAGE_SIZE * g + k];
    }
  }

  /** `r` is good, holds `data` at `addr`, and keeps every other defined byte of `s`. */
  ghost predicate Writes(s: Vm, r: Vm, addr: nat, data: seq<byte>)
    requires Inv(s)
  {
    && Inv(r) && |r.pageTable| == |s.pageTable| && r.executable == s.executable
    && (forall a: nat :: a / PAGE_SIZE < |s.pageTable| ==>
          if addr <= a < addr + |data| then View(r, a) == Some(data[a - addr]) else Keeps(View(s, a), View(r, a)))
  }

  /** A store keeps the invariant, sets exactly the bytes it names, and keeps all others. */
  lemma StoreRefines(s: Vm, addr: nat, data: seq<byte>)
    requires Inv(s) && Access(s, addr, |data|, true)
    ensures Translate(s, addr, |data|, true).physAddr + |data| <= |s.memory|
    ensures Writes(s, Stored(s, addr, data), addr, data)
  {
    var t := Translate(s, addr, |data|, true).after;
    StoreFits(s, addr, data);
    AccessInPage(s, addr, |data|, true);
    TranslatedFrame(s, addr, |data|, true);
    TranslateRefines(s, addr, |data|, true);
    var f := FindFrame(s.ipt, addr / PAGE_SIZE, s.processId, 0);
    StoreIntoFrame(s, t, Stored(s, addr, data), addr, data, f);
  }

  lemma StoreIntoFrame(s: Vm, t: Vm, r: Vm, addr: nat, data: seq<byte>, f: nat)
    requires Inv(s) && Refines(s, t) && |t.pageTable| == |s.pageTable|
    requires InUse(t, f, -1) && t.ipt[f].virtualPage == addr / PAGE_SIZE < |t.pageTable| && MustSwap(t, f)
    requires addr % PAGE_SIZE + |data| <= PAGE_SIZE
    requires r == t.(memory := StoreBytes(t.memory, PAGE_SIZE * f + addr % PAGE_SIZE, data))
    ensures Writes(s, r, addr, data)
  {
    StoreKeepsInv(t, r, addr, data, f);
    forall a: nat | a / PAGE_SIZE < |s.pageTable|
      ensures if addr <= a < addr + |data| then View(r, a) == Some(data[a - addr]) else Keeps(View(s, a), View(r, a))
    {
      assert Keeps(View(s, a), View(t, a));
      StoreChangesView(t, r, addr, data, f, a);
    }
  }

  lemma StoreKeepsInv(t: Vm, r: Vm, addr: nat, data: seq<byte>, f: nat)
    requires Inv(t) && InUse(t, f, -1) && t.ipt[f].virtualPage == addr / PAGE_SIZE < |t.pageTable| && MustSwap(t, f)
    requires addr % PAGE_SIZE + |data| <= PAGE_SIZE
    requires r == t.(memory := StoreBytes(t.memory, PAGE_SIZE * f + addr % PAGE_SIZE, data))
    ensures Inv(r)
  {
    SameTlb(t, r, -1);
    forall g | InUse(t, g, -1) && HoldsPage(r, g) && !MustSwap(r, g)
      ensures Frame(r.memory, g) == Frame(t.memory, g)
    {
      assert !MustSwap(t, g);
      StoredFrame(t, addr, data, f, g);
    }
    SameFramesKeep(t, r, -1);
    assert forall g :: InUse(r, g, -1) <==> InUse(t, g, -1);
  }

  lemma StoreChangesView(t: Vm, r: Vm, addr: nat, data: seq<byte>, f: nat, a: nat)
    requires Inv(t) && InUse(t, f, -1) && t.ipt[f].virtualPage == addr / PAGE_SIZE < |t.pageTable| && MustSwap(t, f)
    requires addr % PAGE_SIZE + |data| <= PAGE_SIZE && a / PAGE_SIZE < |t.pageTable|
    requires r == t.(memory := StoreBytes(t.memory, PAGE_SIZE * f + addr % PAGE_SIZE, data)) && Inv(r)
    ensures if addr <= a < addr + |data| then View(r, a) == Some(data[a - addr]) else Keeps(View(t, a), View(r, a))
  {
    var g := FindFrame(t.ipt, a / PAGE_SIZE, t.processId, 0);
    FoundFrame(t, f);
    assert PageOk(t, a / PAGE_SIZE);
    if g != -1 {
      StoredFrame(t, addr, data, f, g);
      if g == f {
        assert a - addr == a % PAGE_SIZE - addr % PAGE_SIZE;
      }
    }
  }
}
