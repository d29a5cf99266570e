/** What each kind of step does, call by call: who leaves the CPU, who joins the ready list, and what
    becomes of the lock, the semaphore or the condition that is called. */
module KernelSteps {
  import opened Options
  import opened Sequences
  import opened HandOffLocks
  import opened Synch
  import opened Kernel
  import opened KernelInvariant
  import opened KernelRuns

  function First(q: seq<nat>): seq<nat> {
    if q == [] then [] else [q[0]]
  }

  /** The running thread asks for lock `l`: it calls Acquire, or is back from its wait on a condition. */
  predicate AsksFor(k: State, step: Step, l: nat) {
    || step == Acquire(l)
    || (step == Resume && Running(k) && Current(k).pc.InWait? && Current(k).pc.l == l)
  }

  /** Wait goes to sleep. */
  predicate WaitSleeps(k: State, c: nat, lock: Option<nat>) {
    && c < |k.conds| && lock.Some?
    && (k.conds[c].queue == [] || k.conds[c].waitingLock == lock)
  }

  /** The running thread gives lock `l` up: it calls Release, or goes to sleep in Wait. */
  predicate GivesBack(k: State, step: Step, l: nat) {
    step == Release(l) || (step.Wait? && step.lock == Some(l) && WaitSleeps(k, step.c, step.lock))
  }

  /** The running thread tries to take a unit of semaphore `s`. */
  predicate TriesToTake(k: State, step: Step, s: nat) {
    step == P(s) || (step == Resume && Running(k) && Current(k).pc == InP(s))
  }

  /** Signal, or a turn of Broadcast, on condition `c` under `lock`. */
  predicate Signals(k: State, step: Step, c: nat, lock: Option<nat>) {
    || step == Signal(c, lock)
    || (step == SignalNext && Running(k) && Current(k).pc.AtSignal? && Current(k).pc.c == c && lock == Some(Current(k).pc.l))
  }

  /** A lock passes from its owner to the thread that has slept on it longest, or becomes free; a thread
      that asks for it owns it if it is free, and otherwise joins its sleepers unless it owns it. */
  lemma StepOnLock(k: State, step: Step, l: nat)
    requires Inv(k) && Enabled(k, step) && l < |k.locks|
    ensures var r := Next(k, step); var lock := k.locks[l]; var t := k.cpu;
            && l < |r.locks| && (r.locks[l].status == BUSY <==> r.locks[l].owner != None)
            && (r.locks[l].owner, r.locks[l].queue) ==
                 if AsksFor(k, step, l) && lock.owner == None then (t, lock.queue)
                 else if AsksFor(k, step, l) && lock.owner != t then (lock.owner, lock.queue + [t.value])
                 else if GivesBack(k, step, l) && lock.owner == t then
                   (if lock.queue == [] then None else Some(lock.queue[0]), Rest(lock.queue))
                 else (lock.owner, lock.queue)
  {
    StepFrame(k, step);
    StepKeepsInv(k, step);
    assert LockOk(k, l) && LockOk(Next(k, step), l);
    assert step.Wait? ==> CondOk(k, step.c);
    hide Inv, Switch, TryP, TryAcquire, DoV, DoRelease, DoWait, DoSignal, DoYield;
    match step {
      case Acquire(m) => TryAcquireFrame(k, k.cpu.value, m, InAcquire(m));
      case Release(m) => ReleaseFrame(k, k.cpu.value, m);
      case Wait(c, lock) => WaitFrame(k, k.cpu.value, c, lock);
      case Resume =>
        if Current(k).pc.InWait? {
          TryAcquireFrame(k, k.cpu.value, Current(k).pc.l, InWaitAcquire(Current(k).pc.l));
        }
      case _ =>
    }
  }

  /** A V adds one and wakes the thread that has slept longest; a P takes one, or sleeps behind the
      others when there is none. */
  lemma StepOnSemaphore(k: State, step: Step, s: nat)
    requires Enabled(k, step) && s < |k.sems|
    ensures var r := Next(k, step); var sem := k.sems[s];
            && s < |r.sems|
            && (r.sems[s].value, r.sems[s].queue) ==
                 if step == V(s) || step == HandlerV(s) then (sem.value + 1, Rest(sem.queue))
                 else if TriesToTake(k, step, s) && sem.value == 0 then (sem.value, sem.queue + [k.cpu.value])
                 else if TriesToTake(k, step, s) then (sem.value - 1, sem.queue)
                 else (sem.value, sem.queue)
  {
    hide Switch, TryP, TryAcquire, DoV, DoRelease, DoWait, DoSignal, DoYield, Park, MakeReady;
    StepFrame(k, step);
    match step {
      case P(m) => TryPFrame(k, k.cpu.value, m);
      case V(m) => VFrame(k, m);
      case HandlerV(m) => VFrame(k, m);
      case Resume =>
        if Current(k).pc.InP? {
          TryPFrame(k, k.cpu.value, Current(k).pc.s);
        }
      case _ =>
    }
  }

  /** A waiter joins at the back, and records the lock; a signal under that lock takes the longest
      waiter off, and the record away with the last. */
  lemma StepOnCondition(k: State, step: Step, c: nat)
    requires Inv(k) && Enabled(k, step) && c < |k.conds|
    ensures var r := Next(k, step); var cond := k.conds[c];
            && c < |r.conds|
            && (r.conds[c].waitingLock, r.conds[c].queue) ==
                 if step.Wait? && step.c == c && WaitSleeps(k, c, step.lock) then (step.lock, cond.queue + [k.cpu.value])
                 else if Signals(k, step, c, cond.waitingLock) then
                   (if |cond.queue| <= 1 then None else cond.waitingLock, Rest(cond.queue))
                 else (cond.waitingLock, cond.queue)
  {
    StepFrame(k, step);
    assert CondOk(k, c);
    hide Inv, Switch, TryP, TryAcquire, DoV, DoRelease, DoWait, DoSignal, DoYield;
    match step {
      case Wait(d, lock) => WaitFrame(k, k.cpu.value, d, lock);
      case Signal(d, lock) => SignalFrame(k, d, lock);
      case SignalNext =>
        var pc := Current(k).pc;
        SignalFrame(SetPc(k, k.cpu.value, AtTest(pc.c, pc.l)), pc.c, Some(pc.l));
      case _ =>
    }
  }

  // ---------- Who runs ----------

  /** The running thread leaves the CPU: it yields to another, finishes, or goes to sleep. */
  predicate LeavesCpu(k: State, step: Step)
    requires Enabled(k, step)
  {
    match step
    case Yield => k.ready != []
    case Finish => true
    case P(s) => k.sems[s].value == 0
    case Acquire(l) => k.locks[l].owner != None && k.locks[l].owner != k.cpu
    case Wait(c, lock) => WaitSleeps(k, c, lock)
    case Resume =>
      (match Current(k).pc
       case InP(s) => k.sems[s].value == 0
       case InWait(_, l) => k.locks[l].owner != None && k.locks[l].owner != k.cpu
       case _ => false)
    case _ => false
  }

  /** The threads that a step makes ready. */
  function MadeReady(k: State, step: Step): seq<nat>
    requires Enabled(k, step)
  {
    match step
    case Fork(t) => [t]
    case Yield => if k.ready == [] then [] else [k.cpu.value]
    case V(s) => First(k.sems[s].queue)
    case HandlerV(s) => First(k.sems[s].queue)
    case Release(l) => if k.locks[l].owner == k.cpu then First(k.locks[l].queue) else []
    case Wait(c, lock) =>
      if WaitSleeps(k, c, lock) && k.locks[lock.value].owner == k.cpu then First(k.locks[lock.value].queue) else []
    case Signal(c, lock) => if k.conds[c].waitingLock == lock then First(k.conds[c].queue) else []
    case SignalNext =>
      var pc := Current(k).pc;
      if k.conds[pc.c].waitingLock == Some(pc.l) then First(k.conds[pc.c].queue) else []
    case _ => []
  }

  lemma QueuedAreThreads(k: State)
    requires Inv(k)
    ensures forall p: Place, i :: 0 <= i < |QueueAt(k, p)| ==> QueueAt(k, p)[i] < |k.threads|
  {
    forall p: Place, i | 0 <= i < |QueueAt(k, p)|
      ensures QueueAt(k, p)[i] < |k.threads|
    {
      assert p != Nowhere && PlaceOk(k, p);
      assert QueueAt(k, p)[i] in QueueAt(k, p);
    }
  }

  /** From `k` on, `joined` are ready, and then the CPU goes to the front of the ready list if its thread
      left it, and stays idle if nobody is ready. */
  predicate Scheduled(k: State, r: State, joined: seq<nat>, left: bool) {
    var q := k.ready + joined;
    if !left then r.cpu == k.cpu && r.ready == q
    else if q == [] then r.cpu == None && r.ready == []
    else r.cpu == Some(q[0]) && r.ready == q[1..]
  }

  lemma SwitchSchedules(k: State, k1: State, joined: seq<nat>)
    requires k1.cpu == None && k1.ready == k.ready + joined && (k1.ready != [] ==> k1.ready[0] < |k1.threads|)
    ensures Scheduled(k, Switch(k1), joined, true)
  {
  }

  lemma WaitSchedules(k: State, t: nat, c: nat, lock: Option<nat>)
    requires Inv(k) && k.cpu == Some(t) && Enabled(k, Wait(c, lock))
    ensures Scheduled(k, DoWait(k, t, c, lock), MadeReady(k, Wait(c, lock)), WaitSleeps(k, c, lock))
  {
    QueuedAreThreads(k);
    assert CondOk(k, c);
    if Accepts(k.conds[c], lock) {
      var l := lock.value;
      var k1 := DoRelease(k, t, l);
      assert LockOk(k, l);
      assert k.locks[l].queue == QueueAt(k, OnLock(l)) && k.ready == QueueAt(k, OnReady);
      assert k1.ready == k.ready + MadeReady(k, Wait(c, lock));
      hide Inv, DoRelease;
      SwitchSchedules(k, Park(k1.(conds := k1.conds[c := Enqueue(k1.conds[c], l, t)]), t, OnCond(c), InWait(c, l)),
        MadeReady(k, Wait(c, lock)));
    }
  }

  lemma TrySchedules(k: State, t: nat, s: nat, l: nat, pc: Pc)
    requires Inv(k) && k.cpu == Some(t) && t < |k.threads|
    ensures s < |k.sems| ==> Scheduled(k, TryP(k, t, s), [], k.sems[s].value == 0)
    ensures l < |k.locks| ==> Scheduled(k, TryAcquire(k, t, l, pc), [], k.locks[l].owner != None && k.locks[l].owner != Some(t))
  {
    QueuedAreThreads(k);
    assert k.ready == QueueAt(k, OnReady);
    if l < |k.locks| {
      assert LockOk(k, l);
    }
    hide Inv;
    if s < |k.sems| {
      SwitchSchedules(k, Park(k.(sems := k.sems[s := TryDown(k.sems[s], t).0]), t, OnSem(s), InP(s)), []);
    }
    if l < |k.locks| {
      SwitchSchedules(k, Park(k.(locks := k.locks[l := AcquireLock(k.locks[l], t).0]), t, OnLock(l), pc), []);
    }
  }

  /** The scheduler, exactly: who joins the ready list at each step, who leaves the CPU, and who gets it. */
  lemma StepSchedules(k: State, step: Step)
    requires Inv(k) && Enabled(k, step)
    ensures Scheduled(k, Next(k, step), MadeReady(k, step), LeavesCpu(k, step) || step.Dispatch?)
  {
    hide Inv, TryP, TryAcquire, DoWait;
    QueuedAreThreads(k);
    assert k.ready == QueueAt(k, OnReady);
    var t := CpuOf(k);
    match step {
      case P(s) => TrySchedules(k, t, s, 0, User);
      case Acquire(l) => TrySchedules(k, t, 0, l, InAcquire(l));
      case Wait(c, lock) => WaitSchedules(k, t, c, lock);
      case V(s) => assert k.sems[s].queue == QueueAt(k, OnSem(s));
      case HandlerV(s) => assert k.sems[s].queue == QueueAt(k, OnSem(s));
      case Release(l) => assert k.locks[l].queue == QueueAt(k, OnLock(l));
      case Signal(c, _) => assert k.conds[c].queue == QueueAt(k, OnCond(c));
      case SignalNext => assert k.conds[Current(k).pc.c].queue == QueueAt(k, OnCond(Current(k).pc.c));
      case Resume =>
        match Current(k).pc {
          case InP(s) => TrySchedules(k, t, s, 0, User);
          case InWait(_, l) => TrySchedules(k, t, 0, l, InWaitAcquire(l));
          case _ =>
        }
      case _ =>
    }
  }

  // ---------- Where the caller goes on ----------

  /** A call of P, Acquire or Wait, or its continuation, returns to the program unless it sleeps. */
  lemma ReturnsUnlessAsleep(k: State, step: Step, t: nat)
    requires Inv(k) && Enabled(k, step) && k.cpu == Some(t)
    requires step.P? || step.Acquire? || step.Wait? || step.Resume?
    ensures var r := Next(k, step);
            && t < |r.threads| && (r.threads[t].pc == User <==> !LeavesCpu(k, step))
  {
    ProgramStep(k, step, t);
    match step {
      case Wait(c, _) => assert CondOk(k, c);
      case Acquire(l) => assert LockOk(k, l);
      case Resume =>
        if Current(k).pc.InWait? {
          assert LockOk(k, Current(k).pc.l);
        }
      case _ =>
    }
    hide Next, Inv;
  }
}
