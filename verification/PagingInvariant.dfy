/** What every paging step keeps: the TLB, the inverted page table, the page table, the bit maps
    and the swap file agree, and a page that is not dirty has a current copy on disk. */
module PagingInvariant {
  import opened Bytes
  import opened BitMaps
  import opened Options
  import opened VirtualMemory

  // In all of these, `h` is the frame being refilled, or -1: nothing is claimed of frame h.

  ghost predicate InUse(s: Vm, f: int, h: int) {
    && 0 <= f < |s.ipt| && f != h && s.ipt[f].valid
  }

  ghost predicate FrameOk(s: Vm, f: nat)
    requires f < |s.ipt|
  {
    var e := s.ipt[f];
    && e.physicalPage == f && e.spaceOwner == s.processId && !e.readOnly
    && 0 <= e.virtualPage < |s.pageTable| && s.pageTable[e.virtualPage].physicalPage == f
  }

  ghost predicate FramesOk(s: Vm, h: int)
    requires Shape(s)
  {
    && (forall f :: 0 <= f < NUM_PHYS_PAGES && f != h ==> (s.ipt[f].valid <==> s.frameMap[f]))
    && (0 <= h < NUM_PHYS_PAGES ==> s.frameMap[h])
    && (forall f :: 0 <= f < NUM_PHYS_PAGES ==> !s.ipt[f].readOnly)
    && (forall f :: InUse(s, f, h) ==> FrameOk(s, f))
  }

  /** No two frames hold the same page. */
  ghost predicate FramesDistinct(s: Vm, h: int) {
    forall f, g :: InUse(s, f, h) && InUse(s, g, h) && f != g ==> s.ipt[f].virtualPage != s.ipt[g].virtualPage
  }

  ghost predicate TlbOk(s: Vm, i: nat, h: int)
    requires i < |s.tlb|
  {
    var e := s.tlb[i];
    e.valid ==>
      && InUse(s, e.physicalPage, h) && s.ipt[e.physicalPage].virtualPage == e.virtualPage
      && !e.readOnly && (s.ipt[e.physicalPage].dirty ==> e.dirty)
  }

  ghost predicate TlbsOk(s: Vm, h: int) {
    forall i :: 0 <= i < |s.tlb| ==> TlbOk(s, i, h)
  }

  ghost predicate TlbDistinct(s: Vm) {
    forall i, j :: 0 <= i < j < |s.tlb| && s.tlb[i].valid && s.tlb[j].valid ==> s.tlb[i].virtualPage != s.tlb[j].virtualPage
  }

  ghost predicate PageOk(s: Vm, p: nat)
    requires p < |s.pageTable| && Shape(s)
  {
    var e := s.pageTable[p];
    match e.diskLocation
    case SWAP =>
      && e.byteOffset % PAGE_SIZE == 0 && 0 <= e.byteOffset && e.byteOffset / PAGE_SIZE < SWAP_SLOTS
      && s.swapMap[e.byteOffset / PAGE_SIZE] && e.byteOffset + PAGE_SIZE <= |s.swapfile|
    case EXECUTABLE => e.byteOffset == NOFF_HEADER_SIZE + PAGE_SIZE * p
    case NEITHER => true
  }

  ghost predicate PagesOk(s: Vm)
    requires Shape(s)
  {
    forall p :: 0 <= p < |s.pageTable| ==> PageOk(s, p)
  }

  ghost predicate SlotsDistinct(s: Vm) {
    forall p, q :: 0 <= p < q < |s.pageTable| && s.pageTable[p].diskLocation == SWAP && s.pageTable[q].diskLocation == SWAP
      ==> s.pageTable[p].byteOffset != s.pageTable[q].byteOffset
  }

  function SwapCopy(s: Vm, p: nat): (page: seq<byte>)
    requires p < |s.pageTable| && 0 <= s.pageTable[p].byteOffset && s.pageTable[p].byteOffset + PAGE_SIZE <= |s.swapfile|
    ensures |page| == PAGE_SIZE
  {
    s.swapfile[s.pageTable[p].byteOffset..s.pageTable[p].byteOffset + PAGE_SIZE]
  }

  /** The page's disk copy, as far as one exists, equals `page`. */
  ghost predicate DiskCopyIs(s: Vm, p: nat, page: seq<byte>)
    requires p < |s.pageTable| && Shape(s) && PageOk(s, p) && |page| == PAGE_SIZE
  {
    match s.pageTable[p].diskLocation
    case SWAP => page == SwapCopy(s, p)
    case EXECUTABLE =>
      forall o :: 0 <= o < PAGE_SIZE && NOFF_HEADER_SIZE + PAGE_SIZE * p + o < |s.executable|
        ==> page[o] == s.executable[NOFF_HEADER_SIZE + PAGE_SIZE * p + o]
    case NEITHER => true
  }

  /** Not dirty implies the disk copy is current. */
  ghost predicate CleanOk(s: Vm, h: int)
    requires Shape(s) && FramesOk(s, h) && PagesOk(s)
  {
    forall f :: InUse(s, f, h) && !MustSwap(s, f) ==> DiskCopyIs(s, s.ipt[f].virtualPage, Frame(s.memory, f))
  }

  /** Under FIFO the queue lists exactly the loaded frames, each once; otherwise it is unused. */
  ghost predicate QueueOk(s: Vm, h: int) {
    if s.fifo then
      && (forall f :: f in s.queue <==> InUse(s, f, h))
      && (forall i, j :: 0 <= i < j < |s.queue| ==> s.queue[i] != s.queue[j])
    else s.queue == []
  }

  ghost predicate BaseInv(s: Vm, h: int) {
    && Shape(s) && -1 <= h < NUM_PHYS_PAGES && FramesOk(s, h) && FramesDistinct(s, h) && TlbsOk(s, h) && TlbDistinct(s)
    && PagesOk(s) && SlotsDistinct(s) && CleanOk(s, h)
  }

  ghost predicate Inv(s: Vm) {
    BaseInv(s, -1) && QueueOk(s, -1)
  }

  // ---------- What memory holds at an address ----------

  /** The byte at address `a` when its page is in frame `f` (-1: on disk only), if defined:
      an executable-backed byte, or any byte of a page that has been written. */
  ghost function ByteAt(s: Vm, a: nat, f: int): Option<byte>
    requires Shape(s) && PagesOk(s) && a / PAGE_SIZE < |s.pageTable|
    requires -1 <= f < NUM_PHYS_PAGES && (f != -1 ==> s.ipt[f].virtualPage == a / PAGE_SIZE)
  {
    var p, o := a / PAGE_SIZE, a % PAGE_SIZE;
    assert PageOk(s, p);
    var loc := s.pageTable[p].diskLocation;
    var backed := loc == EXECUTABLE && NOFF_HEADER_SIZE + a < |s.executable|;
    if f != -1 then
      if MustSwap(s, f) || loc == SWAP || backed then Some(Frame(s.memory, f)[o]) else None
    else if loc == SWAP then Some(SwapCopy(s, p)[o])
    else if backed then Some(s.executable[NOFF_HEADER_SIZE + a])
    else None
  }

  ghost function View(s: Vm, a: nat): Option<byte>
    requires Inv(s) && a / PAGE_SIZE < |s.pageTable|
  {
    ByteAt(s, a, FindFrame(s.ipt, a / PAGE_SIZE, s.processId, 0))
  }

  /** `now` keeps every byte that was defined. */
  predicate Keeps(was: Option<byte>, now: Option<byte>) {
    was.Some? ==> now == was
  }

  // ---------- Lookups under the invariant ----------

  lemma FoundFrame(s: Vm, f: nat)
    requires BaseInv(s, -1) && InUse(s, f, -1)
    ensures FindFrame(s.ipt, s.ipt[f].virtualPage, s.processId, 0) == f
  {
  }

  lemma NotFound(s: Vm, p: int, h: int)
    requires BaseInv(s, h) && forall f :: InUse(s, f, h) ==> s.ipt[f].virtualPage != p
    requires 0 <= h ==> s.ipt[h].virtualPage != p || !s.ipt[h].valid
    ensures FindFrame(s.ipt, p, s.processId, 0) == -1
  {
  }

  /** A free slot belongs to no page, so a page written there disturbs no other. */
  lemma FreeSlot(s: Vm, slot: nat, p: nat)
    requires Shape(s) && PagesOk(s) && slot < SWAP_SLOTS && !s.swapMap[slot] && p < |s.pageTable|
    ensures s.pageTable[p].diskLocation == SWAP ==>
              || s.pageTable[p].byteOffset + PAGE_SIZE <= PAGE_SIZE * slot
              || PAGE_SIZE * slot + PAGE_SIZE <= s.pageTable[p].byteOffset
  {
    assert PageOk(s, p);
  }

  lemma DropPageDirty(tlb: seq<TlbEntry>, page: int, q: int)
    requires q != page
    ensures DirtyInTlb(DropPage(tlb, page), q) <==> DirtyInTlb(tlb, q)
  {
    var r := DropPage(tlb, page);
    forall i | 0 <= i < |tlb|
      ensures Matches(r[i], q) && r[i].dirty <==> Matches(tlb[i], q) && tlb[i].dirty
    {
    }
    if DirtyInTlb(tlb, q) {
      var i :| 0 <= i < |tlb| && Matches(tlb[i], q) && tlb[i].dirty;
      assert Matches(r[i], q) && r[i].dirty;
    }
  }

  // ---------- Eviction ----------

  lemma EvictKeepsTables(s: Vm, v: nat)
    requires BaseInv(s, -1) && InUse(s, v, -1)
    requires HoldsPage(s, v) && (MustSwap(s, v) ==> FirstClear(s.swapMap, 0) != -1)
    ensures var r := Evict(s, v); FramesOk(r, v) && FramesDistinct(r, v) && TlbsOk(r, v) && TlbDistinct(r)
  {
    var r := Evict(s, v);
    var page := s.ipt[v].virtualPage;
    assert FrameOk(s, v);
    forall f | InUse(r, f, v)
      ensures FrameOk(r, f) && r.ipt[f] == s.ipt[f] && s.ipt[f].virtualPage != page
    {
      assert InUse(s, f, -1) && FrameOk(s, f);
    }
    forall i | 0 <= i < |r.tlb|
      ensures TlbOk(r, i, v)
    {
      assert TlbOk(s, i, -1);
      if r.tlb[i].valid {
        assert r.tlb[i] == s.tlb[i];
        assert InUse(s, s.tlb[i].physicalPage, -1);
        assert s.tlb[i].physicalPage != v;
      }
    }
  }

  lemma EvictKeepsPages(s: Vm, v: nat)
    requires BaseInv(s, -1) && InUse(s, v, -1)
    requires HoldsPage(s, v) && (MustSwap(s, v) ==> FirstClear(s.swapMap, 0) != -1)
    ensures var r := Evict(s, v); PagesOk(r) && SlotsDistinct(r)
  {
    var r := Evict(s, v);
    var page := s.ipt[v].virtualPage;
    FirstClearIsLeast(s.swapMap, 0);
    forall p | 0 <= p < |r.pageTable|
      ensures PageOk(r, p)
    {
      assert PageOk(s, p);
      if MustSwap(s, v) {
        var slot := FirstClear(s.swapMap, 0);
        WriteFileAt(s.swapfile, PAGE_SIZE * slot, Frame(s.memory, v));
      }
    }
    forall p, q | 0 <= p < q < |r.pageTable| && r.pageTable[p].diskLocation == SWAP && r.pageTable[q].diskLocation == SWAP
      ensures r.pageTable[p].byteOffset != r.pageTable[q].byteOffset
    {
      if MustSwap(s, v) {
        var slot := FirstClear(s.swapMap, 0);
        FreeSlot(s, slot, p);
        FreeSlot(s, slot, q);
      }
    }
  }

  /** Eviction leaves the disk copy of every page but the victim's as it was. */
  lemma EvictKeepsDisk(s: Vm, v: nat, p: nat, page: seq<byte>)
    requires BaseInv(s, -1) && InUse(s, v, -1)
    requires HoldsPage(s, v) && (MustSwap(s, v) ==> FirstClear(s.swapMap, 0) != -1)
    requires p < |s.pageTable| && p != s.ipt[v].virtualPage && |page| == PAGE_SIZE
    ensures var r := Evict(s, v); PageOk(s, p) && PageOk(r, p) && r.pageTable[p] == s.pageTable[p]
    ensures s.pageTable[p].diskLocation == SWAP ==> SwapCopy(Evict(s, v), p) == SwapCopy(s, p)
    ensures DiskCopyIs(Evict(s, v), p, page) <==> DiskCopyIs(s, p, page)
  {
    EvictKeepsPages(s, v);
    assert PageOk(s, p) && PageOk(Evict(s, v), p);
    if MustSwap(s, v) && s.pageTable[p].diskLocation == SWAP {
      var slot := FirstClear(s.swapMap, 0);
      FirstClearIsLeast(s.swapMap, 0);
      FreeSlot(s, slot, p);
      WriteFileAt(s.swapfile, PAGE_SIZE * slot, Frame(s.memory, v));
    }
  }

  lemma EvictKeepsClean(s: Vm, v: nat)
    requires BaseInv(s, -1) && InUse(s, v, -1)
    requires HoldsPage(s, v) && (MustSwap(s, v) ==> FirstClear(s.swapMap, 0) != -1)
    ensures BaseInv(Evict(s, v), v)
  {
    var r := Evict(s, v);
    EvictKeepsTables(s, v);
    EvictKeepsPages(s, v);
    forall f | InUse(r, f, v) && !MustSwap(r, f)
      ensures DiskCopyIs(r, r.ipt[f].virtualPage, Frame(r.memory, f))
    {
      assert InUse(s, f, -1);
      DropPageDirty(s.tlb, s.ipt[v].virtualPage, s.ipt[f].virtualPage);
      EvictKeepsDisk(s, v, s.ipt[f].virtualPage, Frame(s.memory, f));
    }
  }

  /** Eviction keeps every defined byte: the victim's page is read from disk afterwards. */
  lemma EvictKeepsView(s: Vm, v: nat, a: nat, f: int)
    requires BaseInv(s, -1) && InUse(s, v, -1) && a / PAGE_SIZE < |s.pageTable|
    requires HoldsPage(s, v) && (MustSwap(s, v) ==> FirstClear(s.swapMap, 0) != -1)
    requires f == FindFrame(s.ipt, a / PAGE_SIZE, s.processId, 0)
    ensures BaseInv(Evict(s, v), v)
    ensures f != -1 ==> Evict(s, v).ipt[f].virtualPage == s.ipt[f].virtualPage
    ensures Keeps(ByteAt(s, a, f), ByteAt(Evict(s, v), a, if f == v then -1 else f))
  {
    var r := Evict(s, v);
    EvictKeepsClean(s, v);
    var p, o := a / PAGE_SIZE, a % PAGE_SIZE;
    assert PageOk(s, p) && PageOk(r, p);
    FoundFrame(s, v);
    if f == v {
      if MustSwap(s, v) {
        var slot := FirstClear(s.swapMap, 0);
        WriteFileAt(s.swapfile, PAGE_SIZE * slot, Frame(s.memory, v));
        assert SwapCopy(r, p) == Frame(s.memory, v);
      } else {
        assert DiskCopyIs(s, p, Frame(s.memory, v));
      }
    } else {
      EvictKeepsDisk(s, v, p, Frame(s.memory, v));
      DropPageDirty(s.tlb, s.ipt[v].virtualPage, p);
    }
  }

  // ---------- Taking a free frame, and loading ----------

  lemma TakeFree(s: Vm, f: nat)
    requires BaseInv(s, -1) && f < NUM_PHYS_PAGES && !s.frameMap[f]
    ensures BaseInv(s.(frameMap := s.frameMap[f := true]), f)
  {
    var r := s.(frameMap := s.frameMap[f := true]);
    assert !s.ipt[f].valid;
    forall g | InUse(r, g, f)
      ensures FrameOk(r, g)
    {
      assert InUse(s, g, -1) && FrameOk(s, g);
    }
    forall i | 0 <= i < |r.tlb|
      ensures TlbOk(r, i, f)
    {
      assert TlbOk(s, i, -1);
    }
    forall p | 0 <= p < |r.pageTable|
      ensures PageOk(r, p)
    {
      assert PageOk(s, p);
    }
    forall g | InUse(r, g, f) && !MustSwap(r, g)
      ensures DiskCopyIs(r, r.ipt[g].virtualPage, Frame(r.memory, g))
    {
      assert InUse(s, g, -1) && !MustSwap(s, g);
    }
  }

  /** A page brought in from disk is, where it is defined, its disk copy. */
  lemma LoadedIsDiskCopy(s: Vm, vpn: nat, f: nat)
    requires Shape(s) && PagesOk(s) && f < NUM_PHYS_PAGES && vpn < |s.pageTable|
    ensures PageOk(s, vpn) && DiskCopyIs(s, vpn, LoadedFrame(s, vpn, f))
  {
  }

  /** No loaded frame but `h` holds page `vpn`. */
  ghost predicate Absent(s: Vm, vpn: int, h: int) {
    && (forall f :: InUse(s, f, h) ==> s.ipt[f].virtualPage != vpn)
  }

  lemma LoadKeepsTables(s: Vm, vpn: nat, h: nat)
    requires BaseInv(s, h) && vpn < |s.pageTable| && Absent(s, vpn, h)
    ensures var r := LoadPage(s, vpn, h);
            && Shape(r) && FramesOk(r, -1) && FramesDistinct(r, -1) && TlbsOk(r, -1) && TlbDistinct(r)
            && PagesOk(r) && SlotsDistinct(r)
  {
    var r := LoadPage(s, vpn, h);
    forall f | InUse(r, f, -1)
      ensures FrameOk(r, f) && (f != h ==> InUse(s, f, h) && r.ipt[f] == s.ipt[f])
    {
      if f != h {
        assert InUse(s, f, h) && FrameOk(s, f);
      }
    }
    forall i | 0 <= i < |r.tlb|
      ensures TlbOk(r, i, -1)
    {
      assert TlbOk(s, i, h);
    }
    forall p | 0 <= p < |r.pageTable|
      ensures PageOk(r, p)
    {
      assert PageOk(s, p);
    }
  }

  lemma AbsentFromTlb(s: Vm, vpn: nat, h: int)
    requires BaseInv(s, h) && Absent(s, vpn, h)
    ensures FindTlb(s.tlb, vpn, 0) == -1 && !DirtyInTlb(s.tlb, vpn)
  {
    forall i | 0 <= i < |s.tlb|
      ensures !(s.tlb[i].valid && s.tlb[i].virtualPage == vpn)
    {
      assert TlbOk(s, i, h);
    }
  }

  lemma LoadKeepsClean(s: Vm, vpn: nat, h: nat)
    requires BaseInv(s, h) && vpn < |s.pageTable| && Absent(s, vpn, h)
    ensures BaseInv(LoadPage(s, vpn, h), -1)
  {
    var r := LoadPage(s, vpn, h);
    LoadKeepsTables(s, vpn, h);
    forall f | InUse(r, f, -1) && !MustSwap(r, f)
      ensures DiskCopyIs(r, r.ipt[f].virtualPage, Frame(r.memory, f))
    {
      FrameOfSetFrame(s.memory, h, LoadedFrame(s, vpn, h), f);
      if f == h {
        LoadedIsDiskCopy(s, vpn, h);
      } else {
        assert InUse(s, f, h) && !MustSwap(s, f);
        assert DiskCopyIs(s, s.ipt[f].virtualPage, Frame(s.memory, f));
      }
    }
  }

  lemma LoadKeepsView(s: Vm, vpn: nat, h: nat, a: nat, f: int)
    requires BaseInv(s, h) && vpn < |s.pageTable| && Absent(s, vpn, h) && a / PAGE_SIZE < |s.pageTable|
    requires if a / PAGE_SIZE == vpn then f == -1 else f != h
    requires f != -1 ==> InUse(s, f, h) && s.ipt[f].virtualPage == a / PAGE_SIZE
    requires f == -1 ==> Absent(s, a / PAGE_SIZE, h)
    ensures BaseInv(LoadPage(s, vpn, h), -1)
    ensures FindFrame(LoadPage(s, vpn, h).ipt, a / PAGE_SIZE, s.processId, 0) == if a / PAGE_SIZE == vpn then h else f
    ensures Keeps(ByteAt(s, a, f),
                  ByteAt(LoadPage(s, vpn, h), a, FindFrame(LoadPage(s, vpn, h).ipt, a / PAGE_SIZE, s.processId, 0)))
  {
    var r := LoadPage(s, vpn, h);
    LoadKeepsClean(s, vpn, h);
    var p, o := a / PAGE_SIZE, a % PAGE_SIZE;
    assert PageOk(s, p);
    if p == vpn {
      FoundFrame(r, h);
      FrameOfSetFrame(s.memory, h, LoadedFrame(s, vpn, h), h);
      LoadedIsDiskCopy(s, vpn, h);
    } else if f == -1 {
      forall g | InUse(r, g, -1)
        ensures r.ipt[g].virtualPage != p
      {
        assert g != h ==> InUse(s, g, h);
      }
      NotFound(r, p, -1);
    } else {
      assert InUse(r, f, -1);
      FoundFrame(r, f);
      FrameOfSetFrame(s.memory, h, LoadedFrame(s, vpn, h), f);
    }
  }
}
