/** What holds over every run of the kernel: one place per thread, first-come hand-over of locks,
    mutual exclusion, semaphore balance, and what Wait and Broadcast promise. */
module KernelRuns {
  import opened Options
  import opened Sequences
  import opened HandOffLocks
  import opened Synch
  import opened Kernel
  import opened KernelInvariant

  // ---------- Runs ----------

  ghost predicate Steps(ks: seq<State>, steps: seq<Step>) {
    && |ks| == |steps| + 1
    && forall i :: 0 <= i < |steps| ==> Enabled(ks[i], steps[i]) && ks[i + 1] == Next(ks[i], steps[i])
  }

  ghost predicate Run(ks: seq<State>, steps: seq<Step>) {
    Steps(ks, steps) && Initial(ks[0])
  }

  lemma {:induction false} StepsKeepInv(ks: seq<State>, steps: seq<Step>, i: nat)
    requires Steps(ks, steps) && Inv(ks[0]) && i < |ks|
    ensures Inv(ks[i])
  {
    if i > 0 {
      StepsKeepInv(ks, steps, i - 1);
      StepKeepsInv(ks[i - 1], steps[i - 1]);
    }
  }

  /** In every reachable state, with any interleaving of calls, context switches and interrupts,
      the invariant holds. */
  lemma RunKeepsInv(ks: seq<State>, steps: seq<Step>, i: nat)
    requires Run(ks, steps) && i < |ks|
    ensures Inv(ks[i])
  {
    InitialInv(ks[0]);
    StepsKeepInv(ks, steps, i);
  }

  // ---------- Placement ----------

  /** How often `t` is found at a place. */
  function Occurrences(q: seq<nat>, t: nat): nat {
    multiset(q)[t]
  }

  lemma {:induction false} DistinctOccursOnce(q: seq<nat>, t: nat)
    requires Distinct(q)
    ensures Occurrences(q, t) == if t in q then 1 else 0
  {
    if q != [] {
      PopLeavesTheRest(q);
      DistinctOccursOnce(q[1..], t);
      assert q == [q[0]] + q[1..];
      assert multiset(q) == multiset{q[0]} + multiset(q[1..]);
    }
  }

  /** A live thread is found once in exactly one place: on the CPU, on the ready list, or on one
      queue of one lock, semaphore or condition. */
  lemma ExactlyOnePlace(k: State, t: nat) returns (p: Place)
    requires Inv(k) && t < |k.threads| && k.threads[t].place != Nowhere
    ensures p != Nowhere && Occurrences(QueueAt(k, p), t) == 1
    ensures forall q: Place :: q != p ==> Occurrences(QueueAt(k, q), t) == 0
  {
    p := k.threads[t].place;
    assert PlaceOk(k, p);
    DistinctOccursOnce(QueueAt(k, p), t);
    forall q: Place | q != p
      ensures Occurrences(QueueAt(k, q), t) == 0
    {
      assert q != Nowhere ==> PlaceOk(k, q);
      DistinctOccursOnce(QueueAt(k, q), t);
    }
  }

  // ---------- What a step leaves alone ----------

  /** The lock that a step may change, or -1. */
  function LockNamed(k: State, step: Step): int {
    match step
    case Acquire(l) => l
    case Release(l) => l
    case Wait(_, lock) => if lock.Some? then lock.value else -1
    case Resume => if Running(k) && Current(k).pc.InWait? then Current(k).pc.l else -1
    case _ => -1
  }

  /** The semaphore that a step may change, or -1. */
  function SemNamed(k: State, step: Step): int {
    match step
    case P(s) => s
    case V(s) => s
    case HandlerV(s) => s
    case Resume => if Running(k) && Current(k).pc.InP? then Current(k).pc.s else -1
    case _ => -1
  }

  /** The condition that a step may change, or -1. */
  function CondNamed(k: State, step: Step): int {
    match step
    case Wait(c, _) => c
    case Signal(c, _) => c
    case SignalNext => if Running(k) && Current(k).pc.AtSignal? then Current(k).pc.c else -1
    case _ => -1
  }

  function CpuOf(k: State): int {
    if k.cpu.Some? then k.cpu.value else -1
  }

  /** From `k` to `r` no program state changes but that of thread `t`, and no lock, semaphore or
      condition but `l`, `s` and `c`. */
  ghost predicate Frame(k: State, r: State, t: int, l: int, s: int, c: int) {
    && |r.threads| == |k.threads| && |r.locks| == |k.locks| && |r.sems| == |k.sems| && |r.conds| == |k.conds|
    && (forall u :: 0 <= u < |k.threads| && u != t ==>
          r.threads[u].pc == k.threads[u].pc && r.threads[u].held == k.threads[u].held)
    && (forall m :: 0 <= m < |k.locks| && m != l ==> r.locks[m] == k.locks[m])
    && (forall m :: 0 <= m < |k.sems| && m != s ==> r.sems[m] == k.sems[m])
    && (forall m :: 0 <= m < |k.conds| && m != c ==> r.conds[m] == k.conds[m])
  }

  lemma SwitchFrame(k: State)
    ensures Frame(k, Switch(k), -1, -1, -1, -1)
    ensures forall u :: 0 <= u < |k.threads| ==>
              Switch(k).threads[u].pc == k.threads[u].pc && Switch(k).threads[u].held == k.threads[u].held
  {
  }

  lemma TryPFrame(k: State, t: nat, s: nat)
    requires t < |k.threads| && s < |k.sems|
    ensures Frame(k, TryP(k, t, s), t, -1, s, -1)
    ensures TryP(k, t, s).sems[s] == TryDown(k.sems[s], t).0
    ensures TryP(k, t, s).threads[t].pc == if k.sems[s].value == 0 then InP(s) else User
    ensures TryP(k, t, s).threads[t].held == k.threads[t].held
  {
  }

  lemma VFrame(k: State, s: nat)
    requires s < |k.sems|
    ensures Frame(k, DoV(k, s), -1, -1, s, -1) && DoV(k, s).sems[s] == Up(k.sems[s]).0
  {
  }

  lemma TryAcquireFrame(k: State, t: nat, l: nat, pc: Pc)
    requires t < |k.threads| && l < |k.locks|
    ensures Frame(k, TryAcquire(k, t, l, pc), t, l, -1, -1)
    ensures TryAcquire(k, t, l, pc).locks[l] == AcquireLock(k.locks[l], t).0
    ensures TryAcquire(k, t, l, pc).threads[t].pc == if AcquireLock(k.locks[l], t).1 then pc else User
    ensures TryAcquire(k, t, l, pc).threads[t].held ==
              if AcquireLock(k.locks[l], t).1 then k.threads[t].held else k.threads[t].held + {l}
  {
  }

  lemma ReleaseFrame(k: State, t: nat, l: nat)
    requires t < |k.threads| && l < |k.locks|
    ensures Frame(k, DoRelease(k, t, l), t, l, -1, -1)
    ensures DoRelease(k, t, l).locks[l] == ReleaseLock(k.locks[l], t).0
    ensures DoRelease(k, t, l).threads[t].pc == k.threads[t].pc
    ensures DoRelease(k, t, l).threads[t].held == k.threads[t].held - {l}
  {
  }

  lemma WaitFrame(k: State, t: nat, c: nat, lock: Option<nat>)
    requires t < |k.threads| && c < |k.conds| && IsLock(k, lock)
    ensures Frame(k, DoWait(k, t, c, lock), t, if lock.Some? then lock.value else -1, -1, c)
    ensures Accepts(k.conds[c], lock) ==>
              && DoWait(k, t, c, lock).locks[lock.value] == ReleaseLock(k.locks[lock.value], t).0
              && DoWait(k, t, c, lock).conds[c] == Enqueue(k.conds[c], lock.value, t)
              && DoWait(k, t, c, lock).threads[t].pc == InWait(c, lock.value)
              && DoWait(k, t, c, lock).threads[t].held == k.threads[t].held - {lock.value}
    ensures !Accepts(k.conds[c], lock) ==> DoWait(k, t, c, lock) == k
  {
    if Accepts(k.conds[c], lock) {
      var l := lock.value;
      ReleaseFrame(k, t, l);
      var k1 := DoRelease(k, t, l);
      var k2 := Park(k1.(conds := k1.conds[c := Enqueue(k1.conds[c], l, t)]), t, OnCond(c), InWait(c, l));
      SwitchFrame(k2);
      hide Switch, DoRelease;
      assert DoWait(k, t, c, lock) == Switch(k2);
    }
  }

  lemma SignalFrame(k: State, c: nat, lock: Option<nat>)
    requires c < |k.conds|
    ensures Frame(k, DoSignal(k, c, lock), -1, -1, -1, c) && DoSignal(k, c, lock).conds[c] == TakeOne(k.conds[c], lock).0
  {
  }

  lemma YieldFrame(k: State, t: nat)
    requires t < |k.threads|
    ensures Frame(k, DoYield(k, t), -1, -1, -1, -1)
  {
  }

  /** A step leaves alone every lock, semaphore and condition that it does not name, and the
      program state of every thread but the running one. */
  lemma StepFrame(k: State, step: Step)
    requires Enabled(k, step)
    ensures Frame(k, Next(k, step), CpuOf(k), LockNamed(k, step), SemNamed(k, step), CondNamed(k, step))
  {
    hide Switch, TryP, TryAcquire, DoV, DoRelease, DoWait, DoSignal, DoYield;
    var t := CpuOf(k);
    match step {
      case Fork(_) =>
      case Yield => YieldFrame(k, t);
      case Finish => SwitchFrame(Park(k, t, Nowhere, Finished));
      case P(s) => TryPFrame(k, t, s);
      case V(s) => VFrame(k, s);
      case HandlerV(s) => VFrame(k, s);
      case Acquire(l) => TryAcquireFrame(k, t, l, InAcquire(l));
      case Release(l) => ReleaseFrame(k, t, l);
      case Wait(c, lock) => WaitFrame(k, t, c, lock);
      case Signal(c, lock) => SignalFrame(k, c, lock);
      case Broadcast(_, _) =>
      case TestQueue =>
      case SignalNext =>
        var pc := Current(k).pc;
        SignalFrame(SetPc(k, t, AtTest(pc.c, pc.l)), pc.c, Some(pc.l));
      case Dispatch => SwitchFrame(k);
      case Resume =>
        match Current(k).pc {
          case InP(s) => TryPFrame(k, t, s);
          case InWait(_, l) => TryAcquireFrame(k, t, l, InWaitAcquire(l));
          case _ =>
        }
    }
  }

  /** A call made by a thread's program, as opposed to a switch, a handler or a call going on. */
  predicate IsCall(step: Step) {
    step.Fork? || step.Finish? || step.P? || step.V? || step.Acquire? || step.Release? || step.Wait? || step.Signal?
    || step.Broadcast?
  }

  /** Where the running thread continues after a step, and the locks it then holds. */
  function ProgramAfter(k: State, step: Step): (Pc, set<nat>)
    requires Enabled(k, step) && Running(k)
  {
    var th, t := Current(k), k.cpu.value;
    match step
    case Finish => (Finished, th.held)
    case P(s) => (if k.sems[s].value == 0 then InP(s) else User, th.held)
    case Acquire(l) => if AcquireLock(k.locks[l], t).1 then (InAcquire(l), th.held) else (User, th.held + {l})
    case Release(l) => (th.pc, th.held - {l})
    case Wait(c, lock) => if Accepts(k.conds[c], lock) then (InWait(c, lock.value), th.held - {lock.value}) else (th.pc, th.held)
    case Broadcast(c, lock) => (if Matching(k.conds[c], lock) then AtTest(c, lock.value) else th.pc, th.held)
    case TestQueue => (if k.conds[th.pc.c].queue == [] then User else AtSignal(th.pc.c, th.pc.l), th.held)
    case SignalNext => (AtTest(th.pc.c, th.pc.l), th.held)
    case Resume =>
      (match th.pc
       case InP(s) => (if k.sems[s].value == 0 then InP(s) else User, th.held)
       case InWait(_, l) => if AcquireLock(k.locks[l], t).1 then (InWaitAcquire(l), th.held) else (User, th.held + {l})
       case InAcquire(l) => (User, th.held + {l})
       case InWaitAcquire(l) => (User, th.held + {l})
       case _ => (th.pc, th.held))
    case _ => (th.pc, th.held)
  }

  lemma ProgramStep(k: State, step: Step, t: nat)
    requires Enabled(k, step) && Running(k) && k.cpu == Some(t)
    ensures t < |Next(k, step).threads|
    ensures (Next(k, step).threads[t].pc, Next(k, step).threads[t].held) == ProgramAfter(k, step)
  {
    hide Switch, TryP, TryAcquire, DoV, DoRelease, DoWait, DoSignal, DoYield, AcquireLock;
    match step {
      case Yield => YieldProgram(k, t);
      case Finish => SwitchFrame(Park(k, t, Nowhere, Finished));
      case P(s) => TryPFrame(k, t, s);
      case V(s) => VProgram(k, s, t);
      case HandlerV(s) => VProgram(k, s, t);
      case Acquire(l) => TryAcquireFrame(k, t, l, InAcquire(l));
      case Release(l) => ReleaseFrame(k, t, l);
      case Wait(c, lock) => WaitFrame(k, t, c, lock);
      case Signal(c, lock) => SignalProgram(k, c, lock, t);
      case SignalNext =>
        var pc := Current(k).pc;
        SignalProgram(SetPc(k, t, AtTest(pc.c, pc.l)), pc.c, Some(pc.l), t);
      case Resume =>
        match Current(k).pc {
          case InP(s) => TryPFrame(k, t, s);
          case InWait(_, l) => TryAcquireFrame(k, t, l, InWaitAcquire(l));
          case _ =>
        }
      case _ =>
    }
  }

  lemma YieldProgram(k: State, t: nat)
    requires t < |k.threads|
    ensures t < |DoYield(k, t).threads| && DoYield(k, t).threads[t].pc == k.threads[t].pc
    ensures DoYield(k, t).threads[t].held == k.threads[t].held
  {
  }

  lemma VProgram(k: State, s: nat, t: nat)
    requires s < |k.sems| && t < |k.threads|
    ensures t < |DoV(k, s).threads| && DoV(k, s).threads[t].pc == k.threads[t].pc
    ensures DoV(k, s).threads[t].held == k.threads[t].held
  {
  }

  lemma SignalProgram(k: State, c: nat, lock: Option<nat>, t: nat)
    requires c < |k.conds| && t < |k.threads|
    ensures t < |DoSignal(k, c, lock).threads| && DoSignal(k, c, lock).threads[t].pc == k.threads[t].pc
    ensures DoSignal(k, c, lock).threads[t].held == k.threads[t].held
  {
  }

  // ---------- Locks ----------

  /** What a step does to lock `l`, seen as an abstract lock. */
  function EventOn(k: State, step: Step, l: nat): Option<Event<nat>>
    requires Enabled(k, step)
  {
    match step
    case Acquire(m) => if m == l then Some(Arrives(k.cpu.value)) else None
    case Release(m) => if m == l then Some(Leaves(k.cpu.value)) else None
    case Wait(c, lock) => if lock == Some(l) && Accepts(k.conds[c], lock) then Some(Leaves(k.cpu.value)) else None
    case Resume =>
      if Current(k).pc.InWait? && Current(k).pc.l == l then Some(Arrives(k.cpu.value)) else None
    case _ => None
  }

  lemma StepIsEvent(k: State, step: Step, l: nat, f: Fifo<nat>)
    requires Enabled(k, step) && l < |k.locks| && Represents(k.locks[l], f)
    ensures l < |Next(k, step).locks|
    ensures var e := EventOn(k, step, l);
            Represents(Next(k, step).locks[l], if e.Some? then FifoNext(f, e.value) else f)
  {
    StepFrame(k, step);
    hide Switch, TryP, TryAcquire, DoV, DoRelease, DoWait, DoSignal, DoYield, AcquireLock, ReleaseLock, Represents, Arrive, Leave;
    var t := CpuOf(k);
    if t >= 0 {
      AcquireRefines(k.locks[l], f, t);
      ReleaseRefines(k.locks[l], f, t);
    }
    assert |Next(k, step).locks| == |k.locks| && (LockNamed(k, step) != l ==> Next(k, step).locks[l] == k.locks[l]);
    match step {
      case Acquire(m) => TryAcquireFrame(k, t, m, InAcquire(m));
      case Release(m) => ReleaseFrame(k, t, m);
      case Wait(c, lock) => WaitFrame(k, t, c, lock);
      case Resume =>
        if Current(k).pc.InWait? {
          TryAcquireFrame(k, t, Current(k).pc.l, InWaitAcquire(Current(k).pc.l));
        }
      case _ =>
    }
  }

  function EventsOn(ks: seq<State>, steps: seq<Step>, l: nat): seq<Event<nat>>
    requires |steps| < |ks| && forall i :: 0 <= i < |steps| ==> Enabled(ks[i], steps[i])
    decreases |steps|
  {
    if steps == [] then []
    else
      var n := |steps| - 1;
      var e := EventOn(ks[n], steps[n], l);
      EventsOn(ks, steps[..n], l) + if e.Some? then [e.value] else []
  }

  const NEW_FIFO: Fifo<nat> := Fifo([], [], false)

  /** The abstract lock after the events of a run. */
  function FifoOf(ks: seq<State>, steps: seq<Step>, l: nat): (f: Fifo<nat>)
    requires |steps| < |ks| && forall i :: 0 <= i < |steps| ==> Enabled(ks[i], steps[i])
    ensures FifoOk(f)
  {
    FifoAfter(NEW_FIFO, EventsOn(ks, steps, l))
  }

  lemma FifoOfNext(ks: seq<State>, steps: seq<Step>, l: nat)
    requires |steps| < |ks| && (forall i :: 0 <= i < |steps| ==> Enabled(ks[i], steps[i])) && steps != []
    ensures var n := |steps| - 1; var f := FifoOf(ks, steps[..n], l); var e := EventOn(ks[n], steps[n], l);
            FifoOf(ks, steps, l) == if e.Some? then FifoNext(f, e.value) else f
  {
    var n := |steps| - 1;
    var es := EventsOn(ks, steps, l);
    if EventOn(ks[n], steps[n], l).Some? {
      assert es[..|es| - 1] == EventsOn(ks, steps[..n], l);
    } else {
      assert es == EventsOn(ks, steps[..n], l);
    }
  }

  lemma {:induction false} RunRepresents(ks: seq<State>, steps: seq<Step>, l: nat)
    requires Steps(ks, steps) && |ks| == |steps| + 1 && l < |ks[0].locks| && ks[0].locks[l] == NEW_LOCK
    ensures l < |ks[|steps|].locks| && Represents(ks[|steps|].locks[l], FifoOf(ks, steps, l))
    decreases |steps|
  {
    if steps != [] {
      var n := |steps| - 1;
      assert Enabled(ks[n], steps[n]) && ks[n + 1] == Next(ks[n], steps[n]) && Steps(ks[..n + 1], steps[..n]);
      hide Enabled, Next, EventsOn, EventOn, FifoOf, Represents, FifoNext, Steps;
      RunRepresents(ks[..n + 1], steps[..n], l);
      EventsOfPrefix(ks, steps[..n], l);
      FifoOfNext(ks, steps, l);
      StepIsEvent(ks[n], steps[n], l, FifoOf(ks, steps[..n], l));
    }
  }

  /** Over every run, a kernel lock is the abstract lock driven by the calls made on it: it is BUSY
      exactly when owned, sleepers imply BUSY, and it is granted to callers once each in the order
      in which they came. */
  lemma LockIsFifo(ks: seq<State>, steps: seq<Step>, l: nat)
    requires Steps(ks, steps) && l < |ks[0].locks| && ks[0].locks[l] == NEW_LOCK
    ensures l < |ks[|steps|].locks|
    ensures var lock := ks[|steps|].locks[l]; var f := FifoOf(ks, steps, l);
            && f.granted + lock.queue == Arrivals(NEW_FIFO, EventsOn(ks, steps, l))
            && (lock.status == BUSY ==> f.granted != [] && lock.owner == Some(f.granted[|f.granted| - 1]))
            && (lock.status == FREE ==> lock.owner == None && lock.queue == [])
  {
    RunRepresents(ks, steps, l);
    GrantedInArrivalOrder(NEW_FIFO, EventsOn(ks, steps, l));
  }

  lemma {:induction false} EventsOfPrefix(ks: seq<State>, steps: seq<Step>, l: nat)
    requires |steps| < |ks| && forall i :: 0 <= i < |steps| ==> Enabled(ks[i], steps[i])
    ensures EventsOn(ks[..|steps| + 1], steps, l) == EventsOn(ks, steps, l)
    decreases |steps|
  {
    if steps != [] {
      var n := |steps| - 1;
      EventsOfPrefix(ks, steps[..n], l);
      EventsOfPrefix(ks[..|steps| + 1], steps[..n], l);
      assert ks[..|steps| + 1][..n + 1] == ks[..n + 1];
    }
  }

  /** At most one thread holds a lock: its Acquire has returned and it has not given the lock up. */
  lemma MutualExclusion(k: State, t: nat, u: nat, l: nat)
    requires Inv(k) && t < |k.threads| && u < |k.threads| && l in k.threads[t].held && l in k.threads[u].held
    ensures t == u && l < |k.locks| && k.locks[l].owner == Some(t)
  {
    assert HeldOk(k, t) && HeldOk(k, u);
  }

  /** Acquire, and a Wait that slept, return only to the owner. */
  lemma ReturnsOwning(k: State, step: Step, t: nat, l: nat)
    requires Inv(k) && Enabled(k, step) && k.cpu == Some(t)
    requires step == Acquire(l) || (step == Resume && Current(k).pc in {InAcquire(l), InWaitAcquire(l)})
             || (step == Resume && Current(k).pc.InWait? && Current(k).pc.l == l)
    ensures var r := Next(k, step);
            && t < |r.threads| && l < |r.locks|
            && (r.threads[t].pc == User ==> r.locks[l].owner == Some(t) && l in r.threads[t].held)
            && (r.threads[t].pc != User ==> r.threads[t].place == OnLock(l))
  {
    StepKeepsInv(k, step);
    StepFrame(k, step);
    assert PlaceOk(k, OnCpu) && t in QueueAt(k, OnCpu) && ThreadOk(k, t);
    var r := Next(k, step);
    assert HeldOk(r, t) && ThreadOk(r, t);
    hide Inv, Switch, AcquireLock;
    if step.Acquire? {
      TryAcquireFrame(k, t, l, InAcquire(l));
      TryAcquirePlace(k, t, l, InAcquire(l));
    } else if Current(k).pc.InWait? {
      TryAcquireFrame(k, t, l, InWaitAcquire(l));
      TryAcquirePlace(k, t, l, InWaitAcquire(l));
    }
  }

  lemma TryAcquirePlace(k: State, t: nat, l: nat, pc: Pc)
    requires Inv(k) && t < |k.threads| && l < |k.locks| && k.threads[t].place == OnCpu
    ensures AcquireLock(k.locks[l], t).1 ==> TryAcquire(k, t, l, pc).threads[t].place == OnLock(l)
  {
    assert PlaceOk(k, OnReady);
    assert k.ready != [] ==> k.ready[0] in k.ready;
  }

  // ---------- Semaphores ----------

  /** The V's on semaphore `s` among the first `n` steps. */
  function UpsOn(steps: seq<Step>, s: nat, n: nat): nat
    requires n <= |steps|
  {
    if n == 0 then 0
    else UpsOn(steps, s, n - 1) + if steps[n - 1] == V(s) || steps[n - 1] == HandlerV(s) then 1 else 0
  }

  /** A P on semaphore `s` takes one and returns. */
  predicate Completes(k: State, step: Step, s: nat) {
    && s < |k.sems| && k.sems[s].value != 0
    && (step == P(s) || (step == Resume && Running(k) && Current(k).pc == InP(s)))
  }

  /** The P's on semaphore `s` completed in the first `n` steps. */
  function DownsOn(ks: seq<State>, steps: seq<Step>, s: nat, n: nat): nat
    requires n <= |steps| <= |ks|
  {
    if n == 0 then 0
    else DownsOn(ks, steps, s, n - 1) + if Completes(ks[n - 1], steps[n - 1], s) then 1 else 0
  }

  lemma StepOnSem(k: State, step: Step, s: nat)
    requires Enabled(k, step) && s < |k.sems|
    ensures var r := Next(k, step);
            && s < |r.sems|
            && r.sems[s].value == k.sems[s].value + (if step == V(s) || step == HandlerV(s) then 1 else 0)
                 - (if Completes(k, step, s) then 1 else 0)
  {
    StepFrame(k, step);
    hide Switch, TryP, TryAcquire, DoV, DoRelease, DoWait, DoSignal, DoYield;
    match step {
      case P(r) => TryPFrame(k, k.cpu.value, r);
      case V(r) => VFrame(k, r);
      case HandlerV(r) => VFrame(k, r);
      case Resume =>
        if Current(k).pc.InP? {
          TryPFrame(k, k.cpu.value, Current(k).pc.s);
        }
      case _ =>
    }
  }

  lemma {:induction false} SemValue(ks: seq<State>, steps: seq<Step>, s: nat, n: nat)
    requires Steps(ks, steps) && |ks| == |steps| + 1 && n <= |steps| && s < |ks[0].sems|
    ensures s < |ks[n].sems| && ks[n].sems[s].value == ks[0].sems[s].value + UpsOn(steps, s, n) - DownsOn(ks, steps, s, n)
  {
    if n > 0 {
      assert Enabled(ks[n - 1], steps[n - 1]) && ks[n] == Next(ks[n - 1], steps[n - 1]);
      hide Enabled, Next, Steps, Completes;
      SemValue(ks, steps, s, n - 1);
      StepOnSem(ks[n - 1], steps[n - 1], s);
    }
  }

  /** No wakeup is lost, for any interleaving: the value is never negative and is the initial value
      and the V's less the completed P's; and while threads sleep, at least as many threads have
      been woken and not yet resumed as there are units to take. */
  lemma SemaphoreBalance(ks: seq<State>, steps: seq<Step>, s: nat, n: nat)
    requires Run(ks, steps) && |ks| == |steps| + 1 && n <= |steps| && s < |ks[0].sems|
    ensures s < |ks[n].sems|
    ensures var sem := ks[n].sems[s];
            && sem.value == ks[0].sems[s].value + UpsOn(steps, s, n) - DownsOn(ks, steps, s, n) >= 0
            && (sem.queue != [] ==> sem.value <= |Waking(ks[n], s)|)
  {
    SemValue(ks, steps, s, n);
    RunKeepsInv(ks, steps, n);
    assert SemOk(ks[n], s);
  }

  // ---------- Conditions ----------

  /** A condition has a lock exactly while it has waiters, and all of them wait under it. */
  lemma WaitersShareOneLock(k: State, c: nat)
    requires Inv(k) && c < |k.conds|
    ensures k.conds[c].queue != [] <==> k.conds[c].waitingLock.Some?
    ensures forall t :: t in k.conds[c].queue ==>
              t < |k.threads| && k.threads[t].pc.InWait? && Some(k.threads[t].pc.l) == k.conds[c].waitingLock
  {
    assert CondOk(k, c) && PlaceOk(k, OnCond(c));
    forall t | t in k.conds[c].queue
      ensures t < |k.threads| && k.threads[t].pc.InWait? && Some(k.threads[t].pc.l) == k.conds[c].waitingLock
    {
      assert t in QueueAt(k, OnCond(c));
      assert ThreadOk(k, t);
    }
  }

  /** Wait sleeps if and only if it is given a lock, and nobody waits on the condition or all wait under
      that lock. It then queues its caller and gives the lock up in one step, so whoever takes the lock
      next finds the waiter queued. Otherwise it does nothing. */
  lemma WaitQueuesAndReleases(k: State, c: nat, lock: Option<nat>, t: nat)
    requires Inv(k) && k.cpu == Some(t) && Enabled(k, Wait(c, lock))
    ensures var r := Next(k, Wait(c, lock));
            var waits := lock.Some? && (k.conds[c].queue == [] || k.conds[c].waitingLock == lock);
            && c < |r.conds| && t < |r.threads| && |r.locks| == |k.locks|
            && (waits <==> r.conds[c].queue == k.conds[c].queue + [t] && r.threads[t].pc.InWait?)
            && (waits ==>
                  && r.conds[c].waitingLock == lock && r.threads[t].pc == InWait(c, lock.value)
                  && r.locks[lock.value].owner != Some(t) && lock.value !in r.threads[t].held
                  && (k.locks[lock.value].owner != Some(t) ==> r.locks[lock.value] == k.locks[lock.value]))
            && (!waits ==> r == k)
  {
    WaitFrame(k, t, c, lock);
    assert CondOk(k, c) && PlaceOk(k, OnCpu) && t in QueueAt(k, OnCpu);
    if lock.Some? {
      var l := lock.value;
      assert LockOk(k, l) && PlaceOk(k, OnLock(l));
      assert k.locks[l].queue != [] ==> k.locks[l].queue[0] in QueueAt(k, OnLock(l));
    }
    hide DoWait;
  }

  lemma StepOnCond(k: State, step: Step, c: nat)
    requires Enabled(k, step) && c < |k.conds|
    ensures var r := Next(k, step);
            && c < |r.conds|
            && (r.conds[c] == k.conds[c]
                || (step.Wait? && step.c == c && Accepts(k.conds[c], step.lock) && r.conds[c] == Enqueue(k.conds[c], step.lock.value, k.cpu.value))
                || (step.Signal? && step.c == c && r.conds[c] == TakeOne(k.conds[c], step.lock).0)
                || (step.SignalNext? && Current(k).pc.c == c && r.conds[c] == TakeOne(k.conds[c], Some(Current(k).pc.l)).0))
  {
    StepFrame(k, step);
    hide Switch, TryP, TryAcquire, DoV, DoRelease, DoWait, DoSignal, DoYield, TakeOne, Enqueue;
    match step {
      case Wait(d, lock) => WaitFrame(k, k.cpu.value, d, lock);
      case Signal(d, lock) => SignalFrame(k, d, lock);
      case SignalNext =>
        var pc := Current(k).pc;
        SignalFrame(SetPc(k, k.cpu.value, AtTest(pc.c, pc.l)), pc.c, Some(pc.l));
      case _ =>
    }
  }

  /** Only a signal under the waiters' lock takes a waiter off, and it takes the one that waits longest. */
  lemma WaiterStaysUntilSignalled(k: State, step: Step, c: nat, t: nat)
    requires Enabled(k, step) && c < |k.conds| && t in k.conds[c].queue
    ensures c < |Next(k, step).conds|
    ensures t !in Next(k, step).conds[c].queue ==>
              && k.conds[c].queue[0] == t && Next(k, step).conds[c].queue == k.conds[c].queue[1..]
              && (step == Signal(c, k.conds[c].waitingLock)
                  || (step == SignalNext && Current(k).pc.c == c && Some(Current(k).pc.l) == k.conds[c].waitingLock))
  {
    StepOnCond(k, step, c);
    var q := k.conds[c].queue;
    assert q == [q[0]] + q[1..];
  }

  /** The waiter taken off is ready to run, and will ask for the lock again. */
  lemma SignalledIsReady(k: State, step: Step, c: nat, t: nat)
    requires Inv(k) && Enabled(k, step) && c < |k.conds| && t in k.conds[c].queue
    requires c < |Next(k, step).conds| && t !in Next(k, step).conds[c].queue
    ensures var r := Next(k, step);
            && t < |r.threads| && r.threads[t].place == OnReady && r.threads[t].pc.InWait? && r.threads[t].pc.c == c
  {
    WaiterStaysUntilSignalled(k, step, c, t);
    StepFrame(k, step);
    StepKeepsInv(k, step);
    var r := Next(k, step);
    assert PlaceOk(k, OnCond(c)) && t in QueueAt(k, OnCond(c)) && PlaceOk(k, OnCpu);
    assert k.cpu.Some? ==> k.cpu.value in QueueAt(k, OnCpu);
    assert ThreadOk(k, t) && ThreadOk(r, t);
    assert PlaceOk(r, OnCond(c)) && PlaceOk(r, OnCpu);
    assert r.threads[t].place == OnCond(c) ==> t in QueueAt(r, OnCond(c));
    assert r.threads[t].place == OnCpu ==> t in QueueAt(r, OnCpu);
    hide Inv, Switch, TryP, TryAcquire, DoV, DoRelease, DoWait, DoYield;
    assert r.cpu == k.cpu;
  }

  // ---------- Broadcast ----------

  predicate InBroadcast(k: State, b: nat, c: nat, l: nat) {
    b < |k.threads| && (k.threads[b].pc == AtTest(c, l) || k.threads[b].pc == AtSignal(c, l))
  }

  /** Thread `b` broadcasts on condition `c` and owns its lock `l`. */
  predicate OwnsBroadcast(k: State, b: nat, c: nat, l: nat) {
    && InBroadcast(k, b, c, l) && c < |k.conds| && l < |k.locks| && k.locks[l].owner == Some(b)
    && (k.conds[c].waitingLock == None || k.conds[c].waitingLock == Some(l))
  }

  /** Waits on condition `c` are made by the owner of lock `l`, under that lock. */
  predicate Disciplined(k: State, step: Step, c: nat, l: nat) {
    step.Wait? && step.c == c ==> step.lock == Some(l) && l < |k.locks| && k.locks[l].owner == k.cpu
  }

  /** The broadcaster's next turn of the loop. */
  predicate OwnStep(k: State, step: Step, b: nat) {
    k.cpu == Some(b) && (step == TestQueue || step == SignalNext)
  }

  /** How many steps of its own the broadcaster can still need. */
  function Budget(k: State, b: nat, c: nat): nat
    requires b < |k.threads| && c < |k.conds|
  {
    var n := |k.conds[c].queue|;
    if k.threads[b].pc.AtTest? then 2 * n + 1 else if n == 0 then 2 else 2 * n
  }

  /** Broadcast enters its loop exactly when it is given the lock that the waiters wait under. */
  lemma BroadcastEnters(k: State, b: nat, c: nat, lock: Option<nat>)
    requires Inv(k) && k.cpu == Some(b) && Enabled(k, Broadcast(c, lock))
    ensures var r := Next(k, Broadcast(c, lock));
            if lock.Some? && k.conds[c].waitingLock == lock then
              InBroadcast(r, b, c, lock.value) && (k.locks[lock.value].owner == Some(b) ==> OwnsBroadcast(r, b, c, lock.value))
            else r == k
  {
    assert CondOk(k, c);
    hide Inv;
  }

  lemma OwnerKeepsLock(k: State, step: Step, b: nat, l: nat)
    requires Inv(k) && Enabled(k, step) && l < |k.locks| && k.locks[l].owner == Some(b)
    requires k.cpu == Some(b) ==> !Current(k).pc.User? && !Current(k).pc.InWait?
    ensures l < |Next(k, step).locks| && Next(k, step).locks[l].owner == Some(b)
  {
    StepFrame(k, step);
    assert LockOk(k, l);
    hide Inv, Switch, TryP, TryAcquire, DoV, DoRelease, DoWait, DoSignal, DoYield;
    match step {
      case Acquire(m) => TryAcquireFrame(k, k.cpu.value, m, InAcquire(m));
      case Release(m) => ReleaseFrame(k, k.cpu.value, m);
      case Wait(c, lock) => WaitFrame(k, k.cpu.value, c, lock);
      case Resume =>
        if Current(k).pc.InWait? {
          TryAcquireFrame(k, k.cpu.value, Current(k).pc.l, InWaitAcquire(Current(k).pc.l));
        }
      case _ =>
    }
  }

  /** While the owner broadcasts, no step adds a waiter, and its own steps use up the budget. */
  lemma BroadcastStep(k: State, step: Step, b: nat, c: nat, l: nat)
    requires Inv(k) && Enabled(k, step) && OwnsBroadcast(k, b, c, l) && Disciplined(k, step, c, l)
    ensures var r := Next(k, step);
            && b < |r.threads| && c < |r.conds| && l < |r.locks| && r.locks[l].owner == Some(b)
            && if InBroadcast(r, b, c, l) then
                 OwnsBroadcast(r, b, c, l) && Budget(r, b, c) + (if OwnStep(k, step, b) then 1 else 0) <= Budget(k, b, c)
               else OwnStep(k, step, b) && r.threads[b].pc == User && r.conds[c].queue == []
  {
    StepFrame(k, step);
    StepOnCond(k, step, c);
    OwnerKeepsLock(k, step, b, l);
    assert CondOk(k, c);
    hide Inv, Switch, TryP, TryAcquire, DoV, DoRelease, DoWait, DoYield;
    if k.cpu == Some(b) && step == SignalNext {
      SignalFrame(SetPc(k, b, AtTest(c, l)), c, Some(l));
      hide DoSignal;
    } else if k.cpu == Some(b) && step == Yield {
      YieldFrame(k, b);
    } else if k.cpu == Some(b) && step.HandlerV? {
      VFrame(k, step.s);
    }
  }

  /** The broadcaster's own steps among the first `n`. */
  function OwnSteps(ks: seq<State>, steps: seq<Step>, b: nat, n: nat): nat
    requires n <= |steps| <= |ks|
  {
    if n == 0 then 0 else OwnSteps(ks, steps, b, n - 1) + if OwnStep(ks[n - 1], steps[n - 1], b) then 1 else 0
  }

  /** Broadcast by the owner of the lock ends, with nobody waiting, within two steps of its own per
      waiter and one or two more, whatever other threads and interrupts do in between, as long as
      waits on the condition are made by owners of that lock. */
  lemma {:induction false} BroadcastTerminates(ks: seq<State>, steps: seq<Step>, b: nat, c: nat, l: nat, n: nat)
    requires Steps(ks, steps) && |ks| == |steps| + 1 && n <= |steps| && Inv(ks[0]) && OwnsBroadcast(ks[0], b, c, l)
    requires forall i :: 0 <= i < n ==> InBroadcast(ks[i], b, c, l) && Disciplined(ks[i], steps[i], c, l)
    ensures b < |ks[n].threads| && c < |ks[n].conds| && l < |ks[n].locks| && ks[n].locks[l].owner == Some(b)
    ensures if InBroadcast(ks[n], b, c, l) then
              OwnsBroadcast(ks[n], b, c, l) && OwnSteps(ks, steps, b, n) + Budget(ks[n], b, c) <= Budget(ks[0], b, c)
            else
              OwnSteps(ks, steps, b, n) <= Budget(ks[0], b, c) && ks[n].conds[c].queue == []
  {
    if n > 0 {
      assert Enabled(ks[n - 1], steps[n - 1]) && ks[n] == Next(ks[n - 1], steps[n - 1]);
      BroadcastTerminates(ks, steps, b, c, l, n - 1);
      StepsKeepInv(ks, steps, n - 1);
      hide Steps, Enabled, Next, Inv, Disciplined;
      BroadcastStep(ks[n - 1], steps[n - 1], b, c, l);
    }
  }

  /** Without the discipline Broadcast can spin: once the waiters are under another lock, a turn of
      its loop changes nothing. */
  lemma BroadcastCanSpin(k: State, b: nat, c: nat, l: nat)
    requires k.cpu == Some(b) && b < |k.threads| && k.threads[b].pc == AtTest(c, l) && c < |k.conds|
    requires k.conds[c].queue != [] && k.conds[c].waitingLock != Some(l)
    ensures Enabled(k, TestQueue) && Enabled(Next(k, TestQueue), SignalNext)
    ensures Next(Next(k, TestQueue), SignalNext) == k
  {
  }

  // ---------- Exactly when Broadcast ends ----------

  /** Waiters that Broadcast with lock `l` can take off: none, or waiters under that lock. */
  predicate Matched(k: State, c: nat, l: nat)
    requires c < |k.conds|
  {
    k.conds[c].queue == [] || k.conds[c].waitingLock == Some(l)
  }

  /** One turn of the loop, run without a break, takes a waiter off if and only if the waiters wait under
      the broadcaster's lock; otherwise it changes nothing at all. */
  lemma TurnTakesOneIff(k: State, b: nat, c: nat, l: nat)
    requires Inv(k) && k.cpu == Some(b) && InBroadcast(k, b, c, l) && k.threads[b].pc.AtTest?
    requires c < |k.conds| && k.conds[c].queue != []
    ensures Enabled(k, TestQueue) && Enabled(Next(k, TestQueue), SignalNext)
    ensures var r := Next(Next(k, TestQueue), SignalNext);
            && |r.conds| == |k.conds| && r.cpu == Some(b) && b < |r.threads| && r.threads[b].pc == AtTest(c, l)
            && (|r.conds[c].queue| < |k.conds[c].queue| <==> k.conds[c].waitingLock == Some(l))
            && (k.conds[c].waitingLock == Some(l) ==> r.conds[c].queue == k.conds[c].queue[1..] && Matched(r, c, l))
            && (k.conds[c].waitingLock != Some(l) ==> r == k)
  {
    if k.conds[c].waitingLock != Some(l) {
      BroadcastCanSpin(k, b, c, l);
    } else {
      var m := Next(k, TestQueue);
      assert m == SetPc(k, b, AtSignal(c, l));
      var n := SetPc(m, b, AtTest(c, l));
      SignalFrame(n, c, Some(l));
      SignalProgram(n, c, Some(l), b);
      hide Inv;
    }
  }

  /** The state after `n` turns of the loop run without a break; it stays once the thread has left the loop. */
  function Turns(k: State, n: nat): State {
    if n == 0 then k
    else
      var t := Turns(k, n - 1);
      if !Enabled(t, TestQueue) then t
      else if !Enabled(Next(t, TestQueue), SignalNext) then Next(t, TestQueue)
      else Next(Next(t, TestQueue), SignalNext)
  }

  /** Thread `b` runs, at the head of Broadcast's loop. */
  ghost predicate AtLoopHead(k: State, b: nat, c: nat, l: nat) {
    Inv(k) && k.cpu == Some(b) && InBroadcast(k, b, c, l) && k.threads[b].pc.AtTest? && c < |k.conds|
  }

  /** What a turn does to the waiters, or to the thread when there are none. */
  lemma TurnFromHead(k: State, b: nat, c: nat, l: nat)
    requires AtLoopHead(k, b, c, l)
    ensures k.conds[c].queue != [] ==>
              && Enabled(k, TestQueue) && Enabled(Next(k, TestQueue), SignalNext)
              && (Matched(k, c, l) ==>
                    var r := Next(Next(k, TestQueue), SignalNext);
                    AtLoopHead(r, b, c, l) && Matched(r, c, l) && |r.conds[c].queue| == |k.conds[c].queue| - 1)
              && (!Matched(k, c, l) ==> Next(Next(k, TestQueue), SignalNext) == k)
    ensures k.conds[c].queue == [] ==>
              && Enabled(k, TestQueue) && !Enabled(Next(k, TestQueue), SignalNext)
              && HasLeft(Next(k, TestQueue), b)
  {
    if k.conds[c].queue != [] {
      TurnTakesOneIff(k, b, c, l);
      StepKeepsInv(k, TestQueue);
      StepKeepsInv(Next(k, TestQueue), SignalNext);
      hide Inv, Next, Enabled;
    }
  }

  predicate HasLeft(k: State, b: nat) {
    k.cpu == Some(b) && b < |k.threads| && k.threads[b].pc == User
  }

  /** While the waiters match, each turn takes one off. */
  lemma {:induction false} TurnsTakeOff(k: State, b: nat, c: nat, l: nat, n: nat)
    requires AtLoopHead(k, b, c, l) && Matched(k, c, l) && n <= |k.conds[c].queue|
    ensures var t := Turns(k, n);
            AtLoopHead(t, b, c, l) && c < |t.conds| && Matched(t, c, l) && |t.conds[c].queue| == |k.conds[c].queue| - n
  {
    hide Next, Enabled, Inv, InBroadcast;
    if n > 0 {
      TurnsTakeOff(k, b, c, l, n - 1);
      TurnFromHead(Turns(k, n - 1), b, c, l);
      hide Matched;
    }
  }

  lemma {:induction false} TurnsChangeNothing(k: State, b: nat, c: nat, l: nat, n: nat)
    requires AtLoopHead(k, b, c, l) && !Matched(k, c, l)
    ensures Turns(k, n) == k
  {
    if n > 0 {
      TurnsChangeNothing(k, b, c, l, n - 1);
      TurnFromHead(k, b, c, l);
      hide Next, Enabled, Inv, AtLoopHead;
    }
  }

  /** Run without a break, Broadcast's loop ends if and only if nobody waits or the waiters wait under
      the broadcaster's lock. */
  lemma BroadcastEndsIff(k: State, b: nat, c: nat, l: nat)
    requires AtLoopHead(k, b, c, l)
    ensures (exists n :: HasLeft(Turns(k, n), b)) <==> Matched(k, c, l)
  {
    if Matched(k, c, l) {
      LeavesWhenMatched(k, b, c, l);
    } else {
      forall n: nat
        ensures !HasLeft(Turns(k, n), b)
      {
        TurnsChangeNothing(k, b, c, l, n);
      }
    }
  }

  lemma LeavesWhenMatched(k: State, b: nat, c: nat, l: nat)
    requires AtLoopHead(k, b, c, l) && Matched(k, c, l)
    ensures HasLeft(Turns(k, |k.conds[c].queue| + 1), b)
  {
    var n := |k.conds[c].queue|;
    TurnsTakeOff(k, b, c, l, n);
    hide Inv, AtLoopHead, Next, Enabled, HasLeft;
    TurnFromHead(Turns(k, n), b, c, l);
  }

  /** No step but the broadcaster's own turns touches the condition. */
  predicate LeftAlone(k: State, step: Step, b: nat, c: nat) {
    CondNamed(k, step) == c ==> OwnStep(k, step, b)
  }

  lemma LeftAloneStep(k: State, step: Step, b: nat, c: nat, l: nat)
    requires Inv(k) && Enabled(k, step) && InBroadcast(k, b, c, l) && c < |k.conds| && LeftAlone(k, step, b, c)
    ensures var r := Next(k, step);
            && b < |r.threads| && c < |r.conds|
            && (!Matched(k, c, l) ==> InBroadcast(r, b, c, l) && r.conds[c] == k.conds[c])
            && (Matched(k, c, l) ==>
                  && Matched(r, c, l)
                  && if InBroadcast(r, b, c, l) then
                       Budget(r, b, c) + (if OwnStep(k, step, b) then 1 else 0) <= Budget(k, b, c)
                     else OwnStep(k, step, b) && r.threads[b].pc == User && r.conds[c].queue == [])
  {
    StepFrame(k, step);
    StepOnCond(k, step, c);
    assert CondOk(k, c);
    if k.cpu == Some(b) {
      ProgramStep(k, step, b);
    }
    hide Inv, Next, AcquireLock;
  }

  /** With any interleaving in which only the broadcaster's own turns touch the condition: if the waiters
      wait under another lock, the broadcaster never leaves its loop and nobody is woken. */
  lemma {:induction false} UnmatchedBroadcastNeverEnds(ks: seq<State>, steps: seq<Step>, b: nat, c: nat, l: nat, n: nat)
    requires Steps(ks, steps) && |ks| == |steps| + 1 && n <= |steps| && Inv(ks[0])
    requires InBroadcast(ks[0], b, c, l) && c < |ks[0].conds| && !Matched(ks[0], c, l)
    requires forall i :: 0 <= i < n ==> LeftAlone(ks[i], steps[i], b, c)
    ensures InBroadcast(ks[n], b, c, l) && c < |ks[n].conds| && ks[n].conds[c] == ks[0].conds[c]
  {
    if n > 0 {
      assert Enabled(ks[n - 1], steps[n - 1]) && ks[n] == Next(ks[n - 1], steps[n - 1]);
      UnmatchedBroadcastNeverEnds(ks, steps, b, c, l, n - 1);
      StepsKeepInv(ks, steps, n - 1);
      LeftAloneStep(ks[n - 1], steps[n - 1], b, c, l);
      hide Steps, Enabled, Next, Inv, LeftAlone;
    }
  }

  /** With any such interleaving, if nobody waits or the waiters wait under the broadcaster's lock, the loop
      ends, with nobody waiting, within the budget of its own turns; the lock need not be owned. */
  lemma {:induction false} MatchedBroadcastEnds(ks: seq<State>, steps: seq<Step>, b: nat, c: nat, l: nat, n: nat)
    requires Steps(ks, steps) && |ks| == |steps| + 1 && n <= |steps| && Inv(ks[0])
    requires InBroadcast(ks[0], b, c, l) && c < |ks[0].conds| && Matched(ks[0], c, l)
    requires forall i :: 0 <= i < n ==> InBroadcast(ks[i], b, c, l) && LeftAlone(ks[i], steps[i], b, c)
    ensures b < |ks[n].threads| && c < |ks[n].conds| && Matched(ks[n], c, l)
    ensures OwnSteps(ks, steps, b, n) + (if InBroadcast(ks[n], b, c, l) then Budget(ks[n], b, c) else 0) <= Budget(ks[0], b, c)
    ensures !InBroadcast(ks[n], b, c, l) ==> ks[n].conds[c].queue == []
  {
    if n > 0 {
      assert Enabled(ks[n - 1], steps[n - 1]) && ks[n] == Next(ks[n - 1], steps[n - 1]);
      MatchedBroadcastEnds(ks, steps, b, c, l, n - 1);
      StepsKeepInv(ks, steps, n - 1);
      LeftAloneStep(ks[n - 1], steps[n - 1], b, c, l);
      hide Steps, Enabled, Next, Inv, LeftAlone, Matched;
    }
  }
}
