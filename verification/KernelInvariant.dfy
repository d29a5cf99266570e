/** What every step of the kernel keeps: each thread is in exactly one place, locks pass to the
    thread that sleeps longest, semaphores lose no wakeup, and conditions know their waiters. */
module KernelInvariant {
  import opened Options
  import opened Sequences
  import opened HandOffLocks
  import opened Synch
  import opened Kernel

  // ---------- The invariant ----------

  /** The threads at a place, in order. */
  function QueueAt(k: State, p: Place): seq<nat> {
    match p
    case Nowhere => []
    case OnCpu => if k.cpu.Some? then [k.cpu.value] else []
    case OnReady => k.ready
    case OnLock(l) => if l < |k.locks| then k.locks[l].queue else []
    case OnSem(s) => if s < |k.sems| then k.sems[s].queue else []
    case OnCond(c) => if c < |k.conds| then k.conds[c].queue else []
  }

  ghost predicate PlaceOk(k: State, p: Place) {
    && Distinct(QueueAt(k, p))
    && forall t: nat :: t in QueueAt(k, p) <==> t < |k.threads| && k.threads[t].place == p
  }

  ghost predicate PlacesOk(k: State) {
    forall p: Place :: p != Nowhere ==> PlaceOk(k, p)
  }

  /** A thread past a sleep on lock `l` owns it. */
  predicate OwnsIfWoken(k: State, t: nat, l: nat) {
    l < |k.locks| && k.locks[l].owner == Some(t)
  }

  ghost predicate ThreadOk(k: State, t: nat)
    requires t < |k.threads|
  {
    var pc := k.threads[t].pc;
    match k.threads[t].place
    case Nowhere => pc.User? || pc.Finished?
    case OnLock(l) => pc == InAcquire(l) || pc == InWaitAcquire(l)
    case OnSem(s) => pc == InP(s)
    case OnCond(c) => c < |k.conds| && pc.InWait? && pc.c == c && k.conds[c].waitingLock == Some(pc.l)
    case _ =>
      match pc
      case User => true
      case InP(s) => s < |k.sems|
      case InAcquire(l) => OwnsIfWoken(k, t, l)
      case InWait(c, l) => l < |k.locks|
      case InWaitAcquire(l) => OwnsIfWoken(k, t, l)
      case AtTest(c, l) => c < |k.conds|
      case AtSignal(c, l) => c < |k.conds|
      case Finished => false
  }

  ghost predicate LockOk(k: State, l: nat)
    requires l < |k.locks|
  {
    var lock := k.locks[l];
    && (lock.status == BUSY <==> lock.owner.Some?)
    && (lock.queue != [] ==> lock.status == BUSY)
    && (lock.owner.Some? ==> lock.owner.value < |k.threads| && k.threads[lock.owner.value].place != OnLock(l))
  }

  /** The locks a thread has acquired are those it owns, once its Acquire has returned. */
  ghost predicate HeldOk(k: State, t: nat)
    requires t < |k.threads|
  {
    forall l: nat :: l in k.threads[t].held <==>
      l < |k.locks| && k.locks[l].owner == Some(t) && k.threads[t].pc != InAcquire(l) && k.threads[t].pc != InWaitAcquire(l)
  }

  /** The threads that have been woken from semaphore `s` and have not yet tried again. */
  ghost function Waking(k: State, s: nat): set<nat> {
    set t: nat | t < |k.threads| && k.threads[t].pc == InP(s) && (k.threads[t].place == OnReady || k.threads[t].place == OnCpu)
  }

  ghost predicate SemOk(k: State, s: nat)
    requires s < |k.sems|
  {
    var sem := k.sems[s];
    && sem.value >= 0 && sem.value == sem.initial + sem.ups - sem.downs
    && (sem.queue != [] ==> sem.value <= |Waking(k, s)|)
  }

  ghost predicate CondOk(k: State, c: nat)
    requires c < |k.conds|
  {
    && (k.conds[c].queue != [] <==> k.conds[c].waitingLock.Some?)
    && (k.conds[c].waitingLock.Some? ==> k.conds[c].waitingLock.value < |k.locks|)
  }

  ghost predicate ThreadsOk(k: State) {
    forall t :: 0 <= t < |k.threads| ==> ThreadOk(k, t)
  }

  ghost predicate LocksOk(k: State) {
    && (forall l :: 0 <= l < |k.locks| ==> LockOk(k, l))
    && (forall t :: 0 <= t < |k.threads| ==> HeldOk(k, t))
  }

  ghost predicate SemsOk(k: State) {
    forall s :: 0 <= s < |k.sems| ==> SemOk(k, s)
  }

  ghost predicate CondsOk(k: State) {
    forall c :: 0 <= c < |k.conds| ==> CondOk(k, c)
  }

  ghost predicate Inv(k: State) {
    PlacesOk(k) && ThreadsOk(k) && LocksOk(k) && SemsOk(k) && CondsOk(k)
  }

  // ---------- Moving one thread ----------

  /** Thread `t` leaves the front of one place and joins the back of another. */
  ghost predicate Moves(k: State, r: State, t: nat, p: Place, q: Place) {
    && t < |k.threads| == |r.threads| && k.threads[t].place == p != q == r.threads[t].place
    && (forall u :: 0 <= u < |k.threads| && u != t ==> r.threads[u].place == k.threads[u].place)
    && (p != Nowhere ==> QueueAt(k, p) != [] && QueueAt(k, p)[0] == t && QueueAt(r, p) == QueueAt(k, p)[1..])
    && (q != Nowhere ==> QueueAt(r, q) == QueueAt(k, q) + [t])
    && (forall o: Place :: o != p && o != q ==> QueueAt(r, o) == QueueAt(k, o))
  }

  lemma MoveKeepsPlaces(k: State, r: State, t: nat, p: Place, q: Place)
    requires PlacesOk(k) && Moves(k, r, t, p, q)
    ensures PlacesOk(r)
  {
    forall o: Place | o != Nowhere
      ensures PlaceOk(r, o)
    {
      assert PlaceOk(k, o);
      if o == p {
        PopLeavesTheRest(QueueAt(k, p));
      }
      forall u: nat
        ensures u in QueueAt(r, o) <==> u < |r.threads| && r.threads[u].place == o
      {
        assert u in QueueAt(k, o) <==> u < |k.threads| && k.threads[u].place == o;
        assert o == q ==> (u in QueueAt(r, o) <==> u in QueueAt(k, o) || u == t);
      }
    }
  }

  /** Nobody moves. */
  lemma StayKeepsPlaces(k: State, r: State)
    requires PlacesOk(k) && |r.threads| == |k.threads|
    requires forall u :: 0 <= u < |k.threads| ==> r.threads[u].place == k.threads[u].place
    requires forall o: Place :: QueueAt(r, o) == QueueAt(k, o)
    ensures PlacesOk(r)
  {
    forall o: Place | o != Nowhere
      ensures PlaceOk(r, o)
    {
      assert PlaceOk(k, o);
    }
  }

  lemma SameWaking(k: State, r: State, s: nat)
    requires |r.threads| == |k.threads|
    requires forall t :: 0 <= t < |k.threads| ==> (t in Waking(k, s) <==> t in Waking(r, s))
    ensures Waking(r, s) == Waking(k, s)
  {
  }

  // ---------- The scheduler ----------

  lemma SwitchKeepsInv(k: State)
    requires Inv(k) && k.cpu == None
    ensures Inv(Switch(k))
  {
    if k.ready != [] {
      var t, r := k.ready[0], Switch(k);
      assert PlaceOk(k, OnReady) && t in k.ready;
      MoveKeepsPlaces(k, r, t, OnReady, OnCpu);
      forall s | 0 <= s < |k.sems|
        ensures SemOk(r, s)
      {
        SameWaking(k, r, s);
        assert SemOk(k, s);
      }
      forall u | 0 <= u < |k.threads|
        ensures ThreadOk(r, u) && HeldOk(r, u)
      {
        assert ThreadOk(k, u) && HeldOk(k, u);
      }
      assert forall l :: 0 <= l < |k.locks| ==> LockOk(k, l) ==> LockOk(r, l);
      assert forall c :: 0 <= c < |k.conds| ==> CondOk(k, c) ==> CondOk(r, c);
    }
  }

  /** Changing only where the running thread continues, among places where interrupts are on. */
  lemma SetPcKeepsInv(k: State, t: nat, pc: Pc)
    requires Inv(k) && k.cpu == Some(t) && t < |k.threads|
    requires k.threads[t].pc.User? || k.threads[t].pc.AtTest? || k.threads[t].pc.AtSignal?
    requires pc.User? || (pc.AtTest? && pc.c < |k.conds|) || (pc.AtSignal? && pc.c < |k.conds|)
    ensures Inv(SetPc(k, t, pc))
  {
    var r := SetPc(k, t, pc);
    assert PlaceOk(k, OnCpu) && t in QueueAt(k, OnCpu);
    assert ThreadOk(k, t) && HeldOk(k, t);
    StayKeepsPlaces(k, r);
    OtherStateKept(k, r, t);
  }

  /** For a change of one thread alone that is outside the semaphores and the locks it acquires. */
  lemma OtherStateKept(k: State, r: State, t: nat)
    requires Inv(k) && t < |k.threads| == |r.threads| && r.locks == k.locks && r.sems == k.sems && r.conds == k.conds
    requires forall u :: 0 <= u < |k.threads| && u != t ==> r.threads[u] == k.threads[u]
    requires ThreadOk(r, t) && HeldOk(r, t) && !k.threads[t].pc.InP? && !r.threads[t].pc.InP? && !r.threads[t].place.OnLock?
    ensures ThreadsOk(r) && LocksOk(r) && SemsOk(r) && CondsOk(r)
  {
    forall s | 0 <= s < |k.sems|
      ensures SemOk(r, s)
    {
      SameWaking(k, r, s);
      assert SemOk(k, s);
    }
    forall u | 0 <= u < |k.threads|
      ensures ThreadOk(r, u) && HeldOk(r, u)
    {
      assert ThreadOk(k, u) && HeldOk(k, u);
    }
    assert forall l :: 0 <= l < |k.locks| ==> LockOk(k, l) ==> LockOk(r, l);
    assert forall c :: 0 <= c < |k.conds| ==> CondOk(k, c) ==> CondOk(r, c);
  }

  lemma YieldKeepsInv(k: State, t: nat)
    requires Inv(k) && k.cpu == Some(t) && t < |k.threads| && InterruptsOn(k)
    ensures Inv(DoYield(k, t))
  {
    if k.ready != [] {
      var r := MakeReady(k.(cpu := None), t);
      assert PlaceOk(k, OnCpu) && t in QueueAt(k, OnCpu);
      assert ThreadOk(k, t) && HeldOk(k, t);
      MoveKeepsPlaces(k, r, t, OnCpu, OnReady);
      OtherStateKept(k, r, t);
      SwitchKeepsInv(r);
    }
  }

  lemma FinishKeepsInv(k: State, t: nat)
    requires Inv(k) && k.cpu == Some(t) && t < |k.threads| && k.threads[t].pc.User?
    ensures Inv(Switch(Park(k, t, Nowhere, Finished)))
  {
    var r := Park(k, t, Nowhere, Finished);
    assert PlaceOk(k, OnCpu) && t in QueueAt(k, OnCpu);
    assert ThreadOk(k, t) && HeldOk(k, t);
    MoveKeepsPlaces(k, r, t, OnCpu, Nowhere);
    OtherStateKept(k, r, t);
    SwitchKeepsInv(r);
  }

  lemma ForkKeepsInv(k: State, t: nat)
    requires Inv(k) && t < |k.threads| && k.threads[t].place.Nowhere? && k.threads[t].pc.User?
    ensures Inv(MakeReady(k, t))
  {
    var r := MakeReady(k, t);
    assert ThreadOk(k, t) && HeldOk(k, t);
    MoveKeepsPlaces(k, r, t, Nowhere, OnReady);
    OtherStateKept(k, r, t);
  }

  // ---------- Semaphores ----------

  /** For a change of one semaphore and of one thread's business with it. */
  lemma OtherThanSemKept(k: State, r: State, t: nat, s: nat)
    requires Inv(k) && t < |k.threads| == |r.threads| && r.locks == k.locks && r.conds == k.conds
    requires s < |k.sems| == |r.sems| && r.sems == k.sems[s := r.sems[s]]
    requires forall u :: 0 <= u < |k.threads| && u != t ==> r.threads[u] == k.threads[u]
    requires ThreadOk(r, t) && r.threads[t].held == k.threads[t].held && !r.threads[t].place.OnLock?
    requires k.threads[t].pc.User? || k.threads[t].pc == InP(s)
    requires r.threads[t].pc.User? || r.threads[t].pc == InP(s)
    requires SemOk(r, s)
    ensures ThreadsOk(r) && LocksOk(r) && SemsOk(r) && CondsOk(r)
  {
    forall o | 0 <= o < |k.sems|
      ensures SemOk(r, o)
    {
      if o != s {
        SameWaking(k, r, o);
        assert SemOk(k, o);
      }
    }
    forall u | 0 <= u < |k.threads|
      ensures ThreadOk(r, u) && HeldOk(r, u)
    {
      assert ThreadOk(k, u) && HeldOk(k, u);
    }
    assert forall l :: 0 <= l < |k.locks| ==> LockOk(k, l) ==> LockOk(r, l);
    assert forall c :: 0 <= c < |k.conds| ==> CondOk(k, c) ==> CondOk(r, c);
  }

  ghost predicate AtP(k: State, t: nat, s: nat) {
    && k.cpu == Some(t) && t < |k.threads| && s < |k.sems|
    && (k.threads[t].pc.User? || k.threads[t].pc == InP(s))
  }

  lemma ParkOnSem(k: State, t: nat, s: nat)
    requires Inv(k) && AtP(k, t, s) && k.sems[s].value == 0
    ensures Inv(Park(k.(sems := k.sems[s := k.sems[s].(queue := k.sems[s].queue + [t])]), t, OnSem(s), InP(s)))
  {
    var r := Park(k.(sems := k.sems[s := k.sems[s].(queue := k.sems[s].queue + [t])]), t, OnSem(s), InP(s));
    assert PlaceOk(k, OnCpu) && t in QueueAt(k, OnCpu);
    assert ThreadOk(k, t) && SemOk(k, s);
    MoveKeepsPlaces(k, r, t, OnCpu, OnSem(s));
    hide PlacesOk, Waking;
    OtherThanSemKept(k, r, t, s);
  }

  /** A P that takes one may be one of the threads that were woken. */
  lemma TakeDown(k: State, t: nat, s: nat)
    requires Inv(k) && AtP(k, t, s) && k.sems[s].value != 0
    ensures Inv(SetPc(k.(sems := k.sems[s := TryDown(k.sems[s], t).0]), t, User))
  {
    var r := SetPc(k.(sems := k.sems[s := TryDown(k.sems[s], t).0]), t, User);
    assert PlaceOk(k, OnCpu) && t in QueueAt(k, OnCpu);
    assert ThreadOk(k, t) && SemOk(k, s);
    StayKeepsPlaces(k, r);
    assert Waking(r, s) == Waking(k, s) - {t};
    hide PlacesOk, Waking;
    OtherThanSemKept(k, r, t, s);
  }

  lemma TryPKeepsInv(k: State, t: nat, s: nat)
    requires Inv(k) && AtP(k, t, s)
    ensures Inv(TryP(k, t, s))
  {
    hide Inv, Switch;
    if k.sems[s].value == 0 {
      ParkOnSem(k, t, s);
      SwitchKeepsInv(Park(k.(sems := k.sems[s := TryDown(k.sems[s], t).0]), t, OnSem(s), InP(s)));
    } else {
      TakeDown(k, t, s);
    }
  }

  /** A V that finds a sleeper pays for the wakeup it makes. */
  lemma WakeOne(k: State, s: nat)
    requires Inv(k) && s < |k.sems| && k.sems[s].queue != []
    ensures Inv(DoV(k, s))
  {
    var r, u := DoV(k, s), k.sems[s].queue[0];
    assert SemOk(k, s) && PlaceOk(k, OnSem(s));
    assert u in QueueAt(k, OnSem(s)) && ThreadOk(k, u);
    MoveKeepsPlaces(k, r, u, OnSem(s), OnReady);
    hide PlacesOk, PlaceOk, Moves, QueueAt;
    assert Waking(r, s) == Waking(k, s) + {u};
    hide Waking;
    OtherThanSemKept(k, r, u, s);
  }

  lemma VKeepsInv(k: State, s: nat)
    requires Inv(k) && s < |k.sems|
    ensures Inv(DoV(k, s))
  {
    if k.sems[s].queue == [] {
      assert SemOk(k, s);
      StayKeepsPlaces(k, DoV(k, s));
      OtherThanSemUpped(k, DoV(k, s), s);
    } else {
      WakeOne(k, s);
    }
  }

  lemma OtherThanSemUpped(k: State, r: State, s: nat)
    requires Inv(k) && s < |k.sems| && r == k.(sems := r.sems) && |r.sems| == |k.sems| && r.sems == k.sems[s := r.sems[s]]
    requires SemOk(r, s)
    ensures ThreadsOk(r) && LocksOk(r) && SemsOk(r) && CondsOk(r)
  {
    forall o | 0 <= o < |k.sems|
      ensures SemOk(r, o)
    {
      if o != s {
        SameWaking(k, r, o);
        assert SemOk(k, o);
      }
    }
    assert forall u :: 0 <= u < |k.threads| ==> ThreadOk(k, u) && HeldOk(k, u) ==> ThreadOk(r, u) && HeldOk(r, u);
    assert forall l :: 0 <= l < |k.locks| ==> LockOk(k, l) ==> LockOk(r, l);
    assert forall c :: 0 <= c < |k.conds| ==> CondOk(k, c) ==> CondOk(r, c);
  }

  // ---------- Locks ----------

  /** For a change of one lock, of one thread on or off it, and of one thread's business with it. */
  lemma OtherThanLockKept(k: State, r: State, l: nat)
    requires Inv(k) && |k.threads| == |r.threads| && r.sems == k.sems && r.conds == k.conds
    requires l < |k.locks| == |r.locks| && r.locks == k.locks[l := r.locks[l]] && LockOk(r, l)
    requires forall u :: 0 <= u < |k.threads| ==> r.threads[u] == k.threads[u] || LockBusiness(k, r, u, l)
    requires forall u :: 0 <= u < |k.threads| ==> ThreadOk(r, u) && HeldOk(r, u)
    ensures LocksOk(r) && SemsOk(r) && CondsOk(r)
  {
    forall s | 0 <= s < |k.sems|
      ensures SemOk(r, s)
    {
      SameWaking(k, r, s);
      assert SemOk(k, s);
    }
    forall o | 0 <= o < |k.locks|
      ensures LockOk(r, o)
    {
      assert LockOk(k, o);
    }
    assert forall c :: 0 <= c < |k.conds| ==> CondOk(k, c) ==> CondOk(r, c);
  }

  /** Thread `u` changes in ways that concern lock `l` at most. */
  ghost predicate LockBusiness(k: State, r: State, u: nat, l: nat)
    requires u < |k.threads| == |r.threads|
  {
    && (r.threads[u].place == k.threads[u].place || !r.threads[u].place.OnLock? || r.threads[u].place == OnLock(l))
    && !k.threads[u].pc.InP? && !r.threads[u].pc.InP?
  }

  /** The running thread is about to acquire lock `l`. */
  ghost predicate AtAcquire(k: State, t: nat, l: nat) {
    && k.cpu == Some(t) && t < |k.threads| && l < |k.locks|
    && (k.threads[t].pc.User? || k.threads[t].pc.InWait?)
  }

  lemma ParkOnLock(k: State, t: nat, l: nat, pc: Pc)
    requires Inv(k) && AtAcquire(k, t, l) && AcquireLock(k.locks[l], t).1 && (pc == InAcquire(l) || pc == InWaitAcquire(l))
    ensures Inv(Park(k.(locks := k.locks[l := AcquireLock(k.locks[l], t).0]), t, OnLock(l), pc))
  {
    var r := Park(k.(locks := k.locks[l := AcquireLock(k.locks[l], t).0]), t, OnLock(l), pc);
    assert PlaceOk(k, OnCpu) && t in QueueAt(k, OnCpu);
    MoveKeepsPlaces(k, r, t, OnCpu, OnLock(l));
    assert LockOk(k, l);
    forall u | 0 <= u < |k.threads|
      ensures ThreadOk(r, u) && HeldOk(r, u)
    {
      assert ThreadOk(k, u) && HeldOk(k, u);
    }
    OtherThanLockKept(k, r, l);
  }

  lemma TakeLock(k: State, t: nat, l: nat)
    requires Inv(k) && AtAcquire(k, t, l) && !AcquireLock(k.locks[l], t).1
    ensures Inv(Acquired(k.(locks := k.locks[l := AcquireLock(k.locks[l], t).0]), t, l))
  {
    var r := Acquired(k.(locks := k.locks[l := AcquireLock(k.locks[l], t).0]), t, l);
    assert PlaceOk(k, OnCpu) && t in QueueAt(k, OnCpu);
    StayKeepsPlaces(k, r);
    assert LockOk(k, l);
    forall u | 0 <= u < |k.threads|
      ensures ThreadOk(r, u) && HeldOk(r, u)
    {
      assert ThreadOk(k, u) && HeldOk(k, u);
    }
    OtherThanLockKept(k, r, l);
  }

  lemma TryAcquireKeepsInv(k: State, t: nat, l: nat, pc: Pc)
    requires Inv(k) && AtAcquire(k, t, l) && (pc == InAcquire(l) || pc == InWaitAcquire(l))
    ensures Inv(TryAcquire(k, t, l, pc))
  {
    hide Inv, Switch;
    if AcquireLock(k.locks[l], t).1 {
      ParkOnLock(k, t, l, pc);
      SwitchKeepsInv(Park(k.(locks := k.locks[l := AcquireLock(k.locks[l], t).0]), t, OnLock(l), pc));
    } else {
      TakeLock(k, t, l);
    }
  }

  /** A thread that slept in Acquire returns as the owner. */
  lemma AcquiredKeepsInv(k: State, t: nat, l: nat)
    requires Inv(k) && k.cpu == Some(t) && t < |k.threads|
    requires k.threads[t].pc == InAcquire(l) || k.threads[t].pc == InWaitAcquire(l)
    ensures l < |k.locks| && k.locks[l].owner == Some(t)
    ensures Inv(Acquired(k, t, l)) && l in Acquired(k, t, l).threads[t].held
  {
    var r := Acquired(k, t, l);
    assert PlaceOk(k, OnCpu) && t in QueueAt(k, OnCpu);
    assert ThreadOk(k, t) && HeldOk(k, t);
    StayKeepsPlaces(k, r);
    OtherStateKept(k, r, t);
  }

  /** Release by the owner with threads asleep: the first of them owns the lock and is ready. */
  lemma HandOver(k: State, t: nat, l: nat)
    requires Inv(k) && k.cpu == Some(t) && t < |k.threads| && k.threads[t].pc.User? && l < |k.locks|
    requires k.locks[l].owner == Some(t) && k.locks[l].queue != []
    ensures Inv(DoRelease(k, t, l))
  {
    var r := DoRelease(k, t, l);
    var u := k.locks[l].queue[0];
    assert PlaceOk(k, OnCpu) && t in QueueAt(k, OnCpu);
    assert PlaceOk(k, OnLock(l)) && u in QueueAt(k, OnLock(l));
    MoveKeepsPlaces(k, r, u, OnLock(l), OnReady);
    assert ThreadOk(k, u) && LockOk(k, l);
    hide PlacesOk, PlaceOk, Moves;
    forall w | 0 <= w < |k.threads|
      ensures ThreadOk(r, w) && HeldOk(r, w)
    {
      assert ThreadOk(k, w) && HeldOk(k, w);
    }
    OtherThanLockKept(k, r, l);
  }

  lemma ReleaseKeepsInv(k: State, t: nat, l: nat)
    requires Inv(k) && k.cpu == Some(t) && t < |k.threads| && k.threads[t].pc.User? && l < |k.locks|
    ensures var r := DoRelease(k, t, l);
            Inv(r) && r.cpu == Some(t) && r.threads[t].pc.User? && r.conds == k.conds && |r.threads| == |k.threads|
  {
    var r := DoRelease(k, t, l);
    assert PlaceOk(k, OnCpu) && t in QueueAt(k, OnCpu);
    assert PlaceOk(k, OnLock(l));
    if k.locks[l].owner == Some(t) && k.locks[l].queue != [] {
      assert k.locks[l].queue[0] in QueueAt(k, OnLock(l));
      HandOver(k, t, l);
    } else {
      StayKeepsPlaces(k, r);
      forall w | 0 <= w < |k.threads|
        ensures ThreadOk(r, w) && HeldOk(r, w)
      {
        assert ThreadOk(k, w) && HeldOk(k, w);
      }
      assert LockOk(k, l);
      OtherThanLockKept(k, r, l);
    }
  }

  // ---------- Conditions ----------

  /** For a change of one condition and of one thread on or off it. */
  lemma OtherThanCondKept(k: State, r: State, t: nat, c: nat)
    requires Inv(k) && t < |k.threads| == |r.threads| && r.locks == k.locks && r.sems == k.sems
    requires c < |k.conds| == |r.conds| && r.conds == k.conds[c := r.conds[c]] && CondOk(r, c)
    requires forall u :: 0 <= u < |k.threads| && u != t ==> r.threads[u] == k.threads[u]
    requires forall u :: 0 <= u < |k.threads| && r.threads[u].place == OnCond(c) ==> ThreadOk(r, u)
    requires ThreadOk(r, t) && r.threads[t].held == k.threads[t].held && !r.threads[t].place.OnLock?
    requires (k.threads[t].pc.User? || k.threads[t].pc.InWait?) && r.threads[t].pc.InWait?
    ensures ThreadsOk(r) && LocksOk(r) && SemsOk(r) && CondsOk(r)
  {
    forall s | 0 <= s < |k.sems|
      ensures SemOk(r, s)
    {
      SameWaking(k, r, s);
      assert SemOk(k, s);
    }
    forall u | 0 <= u < |k.threads|
      ensures ThreadOk(r, u) && HeldOk(r, u)
    {
      assert ThreadOk(k, u) && HeldOk(k, u);
    }
    assert forall l :: 0 <= l < |k.locks| ==> LockOk(k, l) ==> LockOk(r, l);
    assert forall o :: 0 <= o < |k.conds| ==> CondOk(k, o) ==> o != c ==> CondOk(r, o);
  }

  lemma ParkOnCond(k: State, t: nat, c: nat, l: nat)
    requires Inv(k) && k.cpu == Some(t) && t < |k.threads| && k.threads[t].pc.User?
    requires c < |k.conds| && l < |k.locks| && Accepts(k.conds[c], Some(l))
    ensures Inv(Park(k.(conds := k.conds[c := Enqueue(k.conds[c], l, t)]), t, OnCond(c), InWait(c, l)))
  {
    var r := Park(k.(conds := k.conds[c := Enqueue(k.conds[c], l, t)]), t, OnCond(c), InWait(c, l));
    assert PlaceOk(k, OnCpu) && t in QueueAt(k, OnCpu) && PlaceOk(k, OnCond(c));
    assert CondOk(k, c);
    MoveKeepsPlaces(k, r, t, OnCpu, OnCond(c));
    forall u | 0 <= u < |k.threads| && r.threads[u].place == OnCond(c)
      ensures ThreadOk(r, u)
    {
      assert u != t ==> ThreadOk(k, u) && u in QueueAt(k, OnCond(c));
    }
    hide PlacesOk, PlaceOk, Moves, QueueAt;
    OtherThanCondKept(k, r, t, c);
  }

  lemma SignalKeepsInv(k: State, c: nat, lock: Option<nat>)
    requires Inv(k) && c < |k.conds|
    ensures Inv(DoSignal(k, c, lock))
  {
    var r := DoSignal(k, c, lock);
    assert PlaceOk(k, OnCond(c)) && CondOk(k, c);
    if k.conds[c].queue != [] && k.conds[c].waitingLock == lock {
      var u := k.conds[c].queue[0];
      assert u in QueueAt(k, OnCond(c)) && ThreadOk(k, u);
      MoveKeepsPlaces(k, r, u, OnCond(c), OnReady);
      forall w | 0 <= w < |k.threads| && r.threads[w].place == OnCond(c)
        ensures ThreadOk(r, w)
      {
        assert PlaceOk(r, OnCond(c)) && w in QueueAt(r, OnCond(c)) && ThreadOk(k, w);
      }
      hide PlacesOk, PlaceOk, Moves, QueueAt;
      OtherThanCondKept(k, r, u, c);
    } else {
      assert r == k;
    }
  }

  lemma WaitKeepsInv(k: State, t: nat, c: nat, lock: Option<nat>)
    requires Inv(k) && k.cpu == Some(t) && t < |k.threads| && k.threads[t].pc.User? && c < |k.conds| && IsLock(k, lock)
    ensures Inv(DoWait(k, t, c, lock))
  {
    if Accepts(k.conds[c], lock) {
      var l := lock.value;
      hide Inv, DoRelease, Switch;
      ReleaseKeepsInv(k, t, l);
      var k1 := DoRelease(k, t, l);
      assert |k1.locks| == |k.locks| by {
        ReleaseKeepsShape(k, t, l);
      }
      ParkOnCond(k1, t, c, l);
      SwitchKeepsInv(Park(k1.(conds := k1.conds[c := Enqueue(k1.conds[c], l, t)]), t, OnCond(c), InWait(c, l)));
    }
  }

  lemma ReleaseKeepsShape(k: State, t: nat, l: nat)
    requires t < |k.threads| && l < |k.locks|
    ensures |DoRelease(k, t, l).locks| == |k.locks|
  {
  }

  // ---------- Every step ----------

  lemma StepKeepsInv(k: State, step: Step)
    requires Inv(k) && Enabled(k, step)
    ensures Inv(Next(k, step))
  {
    hide Inv, Switch, TryP, TryAcquire, DoV, DoRelease, DoWait, DoSignal, DoYield, Acquired;
    match step {
      case Fork(t) => ForkKeepsInv(k, t);
      case Yield => YieldKeepsInv(k, k.cpu.value);
      case Finish => FinishKeepsInv(k, k.cpu.value);
      case P(s) => TryPKeepsInv(k, k.cpu.value, s);
      case V(s) => VKeepsInv(k, s);
      case HandlerV(s) => VKeepsInv(k, s);
      case Acquire(l) => TryAcquireKeepsInv(k, k.cpu.value, l, InAcquire(l));
      case Release(l) => ReleaseKeepsInv(k, k.cpu.value, l);
      case Wait(c, lock) => WaitKeepsInv(k, k.cpu.value, c, lock);
      case Signal(c, lock) => SignalKeepsInv(k, c, lock);
      case Broadcast(c, lock) =>
        if Matching(k.conds[c], lock) {
          SetPcKeepsInv(k, k.cpu.value, AtTest(c, lock.value));
        }
      case Resume =>
        match Current(k).pc {
          case InP(s) => TryPKeepsInv(k, k.cpu.value, s);
          case InWait(c, l) => TryAcquireKeepsInv(k, k.cpu.value, l, InWaitAcquire(l));
          case InAcquire(l) => AcquiredKeepsInv(k, k.cpu.value, l);
          case InWaitAcquire(l) => AcquiredKeepsInv(k, k.cpu.value, l);
          case _ =>
        }
      case TestQueue =>
        var pc := Current(k).pc;
        SetPcKeepsInv(k, k.cpu.value, if k.conds[pc.c].queue == [] then User else AtSignal(pc.c, pc.l));
      case SignalNext =>
        var pc := Current(k).pc;
        SetPcKeepsInv(k, k.cpu.value, AtTest(pc.c, pc.l));
        SignalKeepsInv(SetPc(k, k.cpu.value, AtTest(pc.c, pc.l)), pc.c, Some(pc.l));
      case Dispatch => SwitchKeepsInv(k);
    }
  }

  lemma InitialInv(k: State)
    requires Initial(k)
    ensures Inv(k)
  {
  }

  /** A running thread that is past its Sleep can always go on. */
  lemma ResumeEnabled(k: State)
    requires Inv(k) && k.cpu.Some?
    ensures Running(k) && !Current(k).pc.Finished?
    ensures InterruptsOn(k) || Enabled(k, Resume)
    ensures Current(k).pc.AtTest? ==> Enabled(k, TestQueue)
    ensures Current(k).pc.AtSignal? ==> Enabled(k, SignalNext)
  {
    assert PlaceOk(k, OnCpu) && k.cpu.value in QueueAt(k, OnCpu);
    assert ThreadOk(k, k.cpu.value);
  }
}
