/** Threads, the scheduler and the synchronisation objects (threads/thread.cc, threads/scheduler.cc,
    threads/synch.cc) as a transition system. A step is what runs with interrupts off, up to the
    point where they come back on or the CPU is given away; anything may happen between steps. */
module Kernel {
  import opened Options
  import opened HandOffLocks
  import opened Synch

  /** Where a thread continues when it next has the CPU. */
  datatype Pc =
    | User
    | InP(s: nat)
    | InAcquire(l: nat)
    | InWait(c: nat, l: nat)
    | InWaitAcquire(l: nat)
    | AtTest(c: nat, l: nat)
    | AtSignal(c: nat, l: nat)
    | Finished

  /** Nowhere is for threads not forked yet and threads that have finished. */
  datatype Place = Nowhere | OnCpu | OnReady | OnLock(l: nat) | OnSem(s: nat) | OnCond(c: nat)

  /** `held` is history: the locks that the thread's calls have acquired and not yet given up. */
  datatype Thread = Thread(pc: Pc, place: Place, held: set<nat>)

  /** `cpu` is None while the CPU idles in Sleep. */
  datatype State = State(
    cpu: Option<nat>, ready: seq<nat>, threads: seq<Thread>,
    locks: seq<LockState>, sems: seq<SemState>, conds: seq<CondState>)

  // ---------- The scheduler ----------

  function Update(k: State, t: nat, th: Thread): State
    requires t < |k.threads|
  {
    k.(threads := k.threads[t := th])
  }

  /** Scheduler::ReadyToRun. */
  function MakeReady(k: State, t: nat): State
    requires t < |k.threads|
  {
    Update(k, t, k.threads[t].(place := OnReady)).(ready := k.ready + [t])
  }

  /** Sleep's loop: the first ready thread gets the CPU, if there is one. */
  function Switch(k: State): State {
    if k.ready == [] || k.ready[0] >= |k.threads| then k
    else
      var t := k.ready[0];
      Update(k, t, k.threads[t].(place := OnCpu)).(cpu := Some(t), ready := k.ready[1..])
  }

  /** The running thread has been put on a queue: it leaves the CPU and will continue at `pc`. */
  function Park(k: State, t: nat, place: Place, pc: Pc): State
    requires t < |k.threads|
  {
    Update(k, t, k.threads[t].(pc := pc, place := place)).(cpu := None)
  }

  function SetPc(k: State, t: nat, pc: Pc): State
    requires t < |k.threads|
  {
    Update(k, t, k.threads[t].(pc := pc))
  }

  // ---------- What the running thread does ----------

  function TryP(k: State, t: nat, s: nat): State
    requires t < |k.threads| && s < |k.sems|
  {
    var (sem, sleeps) := TryDown(k.sems[s], t);
    var k1 := k.(sems := k.sems[s := sem]);
    if sleeps then Switch(Park(k1, t, OnSem(s), InP(s))) else SetPc(k1, t, User)
  }

  function DoV(k: State, s: nat): State
    requires s < |k.sems|
  {
    var (sem, woken) := Up(k.sems[s]);
    var k1 := k.(sems := k.sems[s := sem]);
    if woken.Some? && woken.value < |k.threads| then MakeReady(k1, woken.value) else k1
  }

  /** Acquire returns to the caller. */
  function Acquired(k: State, t: nat, l: nat): State
    requires t < |k.threads|
  {
    Update(k, t, k.threads[t].(pc := User, held := k.threads[t].held + {l}))
  }

  /** Acquire; a sleeper will continue at `pc`. */
  function TryAcquire(k: State, t: nat, l: nat, pc: Pc): State
    requires t < |k.threads| && l < |k.locks|
  {
    var (lock, sleeps) := AcquireLock(k.locks[l], t);
    var k1 := k.(locks := k.locks[l := lock]);
    if sleeps then Switch(Park(k1, t, OnLock(l), pc)) else Acquired(k1, t, l)
  }

  function DoRelease(k: State, t: nat, l: nat): State
    requires t < |k.threads| && l < |k.locks|
  {
    var (lock, woken) := ReleaseLock(k.locks[l], t);
    var k1 := Update(k, t, k.threads[t].(held := k.threads[t].held - {l})).(locks := k.locks[l := lock]);
    if woken.Some? && woken.value < |k.threads| then MakeReady(k1, woken.value) else k1
  }

  /** Wait: the caller is queued and the lock released in one step, in which their order does not show. */
  function DoWait(k: State, t: nat, c: nat, lock: Option<nat>): State
    requires t < |k.threads| && c < |k.conds| && (lock.Some? ==> lock.value < |k.locks|)
  {
    if !Accepts(k.conds[c], lock) then k
    else
      var k1 := DoRelease(k, t, lock.value);
      var k2 := k1.(conds := k1.conds[c := Enqueue(k1.conds[c], lock.value, t)]);
      Switch(Park(k2, t, OnCond(c), InWait(c, lock.value)))
  }

  function DoSignal(k: State, c: nat, lock: Option<nat>): State
    requires c < |k.conds|
  {
    var (cond, woken) := TakeOne(k.conds[c], lock);
    var k1 := k.(conds := k.conds[c := cond]);
    if woken.Some? && woken.value < |k.threads| then MakeReady(k1, woken.value) else k1
  }

  function DoYield(k: State, t: nat): State
    requires t < |k.threads|
  {
    if k.ready == [] then k else Switch(MakeReady(k.(cpu := None), t))
  }

  // ---------- Steps ----------

  datatype Step =
    | Fork(t: nat)
    | Yield
    | Finish
    | P(s: nat)
    | V(s: nat)
    | Acquire(l: nat)
    | Release(l: nat)
    | Wait(c: nat, lock: Option<nat>)
    | Signal(c: nat, lock: Option<nat>)
    | Broadcast(c: nat, lock: Option<nat>)
    | Resume
    | TestQueue
    | SignalNext
    | HandlerV(s: nat)
    | Dispatch

  predicate Running(k: State) {
    k.cpu.Some? && k.cpu.value < |k.threads|
  }

  function Current(k: State): Thread
    requires Running(k)
  {
    k.threads[k.cpu.value]
  }

  /** A running thread that is past its Sleep still has interrupts off. */
  predicate InterruptsOn(k: State) {
    Running(k) && (Current(k).pc.User? || Current(k).pc.AtTest? || Current(k).pc.AtSignal?)
  }

  predicate Calls(k: State) {
    Running(k) && Current(k).pc.User?
  }

  /** A lock argument is null or one of the locks. */
  predicate IsLock(k: State, lock: Option<nat>) {
    lock.Some? ==> lock.value < |k.locks|
  }

  predicate Enabled(k: State, step: Step) {
    match step
    case Fork(t) => Calls(k) && t < |k.threads| && k.threads[t].place.Nowhere? && k.threads[t].pc.User?
    case Yield => InterruptsOn(k)
    case Finish => Calls(k)
    case P(s) => Calls(k) && s < |k.sems|
    case V(s) => Calls(k) && s < |k.sems|
    case Acquire(l) => Calls(k) && l < |k.locks|
    case Release(l) => Calls(k) && l < |k.locks|
    case Wait(c, lock) => Calls(k) && c < |k.conds| && IsLock(k, lock)
    case Signal(c, lock) => Calls(k) && c < |k.conds| && IsLock(k, lock)
    case Broadcast(c, lock) => Calls(k) && c < |k.conds| && IsLock(k, lock)
    case Resume =>
      Running(k) && (match Current(k).pc
                     case InP(s) => s < |k.sems|
                     case InAcquire(l) => true
                     case InWait(c, l) => l < |k.locks|
                     case InWaitAcquire(l) => true
                     case _ => false)
    case TestQueue => Running(k) && Current(k).pc.AtTest? && Current(k).pc.c < |k.conds|
    case SignalNext => Running(k) && Current(k).pc.AtSignal? && Current(k).pc.c < |k.conds|
    case HandlerV(s) => (k.cpu == None || InterruptsOn(k)) && s < |k.sems|
    case Dispatch => k.cpu == None && k.ready != []
  }

  function Next(k: State, step: Step): State
    requires Enabled(k, step)
  {
    match step
    case Fork(t) => MakeReady(k, t)
    case Yield => DoYield(k, k.cpu.value)
    case Finish => Switch(Park(k, k.cpu.value, Nowhere, Finished))
    case P(s) => TryP(k, k.cpu.value, s)
    case V(s) => DoV(k, s)
    case Acquire(l) => TryAcquire(k, k.cpu.value, l, InAcquire(l))
    case Release(l) => DoRelease(k, k.cpu.value, l)
    case Wait(c, lock) => DoWait(k, k.cpu.value, c, lock)
    case Signal(c, lock) => DoSignal(k, c, lock)
    case Broadcast(c, lock) =>
      if Matching(k.conds[c], lock) then SetPc(k, k.cpu.value, AtTest(c, lock.value)) else k
    case Resume =>
      (match Current(k).pc
       case InP(s) => TryP(k, k.cpu.value, s)
       case InWait(c, l) => TryAcquire(k, k.cpu.value, l, InWaitAcquire(l))
       case InAcquire(l) => Acquired(k, k.cpu.value, l)
       case InWaitAcquire(l) => Acquired(k, k.cpu.value, l)
       case _ => k)
    case TestQueue =>
      var pc := Current(k).pc;
      SetPc(k, k.cpu.value, if k.conds[pc.c].queue == [] then User else AtSignal(pc.c, pc.l))
    case SignalNext =>
      var pc := Current(k).pc;
      DoSignal(SetPc(k, k.cpu.value, AtTest(pc.c, pc.l)), pc.c, Some(pc.l))
    case HandlerV(s) => DoV(k, s)
    case Dispatch => Switch(k)
  }

  /** One thread running, the others not forked yet, and nothing taken. */
  ghost predicate Initial(k: State) {
    && k.threads != [] && k.cpu == Some(0) && k.ready == []
    && (forall t :: 0 <= t < |k.threads| ==> k.threads[t] == Thread(User, if t == 0 then OnCpu else Nowhere, {}))
    && (forall l :: 0 <= l < |k.locks| ==> k.locks[l] == NEW_LOCK)
    && (forall s :: 0 <= s < |k.sems| ==> k.sems[s].initial >= 0 && k.sems[s] == NewSem(k.sems[s].initial))
    && (forall c :: 0 <= c < |k.conds| ==> k.conds[c] == NEW_COND)
  }
}
