/** A run to a state in which Broadcast's loop, left to itself, changes nothing: the discipline that
    KernelRuns.BroadcastTerminates asks for is needed. */
module KernelWitness {
  import opened Options
  import opened HandOffLocks
  import opened Synch
  import opened Kernel
  import opened KernelRuns

  const L: LockState := NEW_LOCK

  /** Three threads, two locks, one condition. No lock is ever taken, so `held` stays empty. */
  function At(cpu: nat, ready: seq<nat>, t0: (Pc, Place), t1: (Pc, Place), t2: (Pc, Place), c: CondState): State {
    State(Some(cpu), ready, [Thread(t0.0, t0.1, {}), Thread(t1.0, t1.1, {}), Thread(t2.0, t2.1, {})], [L, L], [], [c])
  }

  function Start(): State {
    At(0, [], (User, OnCpu), (User, Nowhere), (User, Nowhere), NEW_COND)
  }

  /** A Wait by thread `t`, which does not own the lock, hands the CPU to the first ready thread `u`. */
  lemma WaitStep(k: State, t: nat, l: nat, u: nat, r: State)
    requires k.cpu == Some(t) && t < 3 == |k.threads| && k.threads[t] == Thread(User, OnCpu, {}) && l < 2 && k.locks == [L, L]
    requires |k.conds| == 1 && Accepts(k.conds[0], Some(l))
    requires k.ready != [] && k.ready[0] == u < 3 && u != t
    requires |r.threads| == 3 && (forall i :: 0 <= i < 3 && i != t && i != u ==> r.threads[i] == k.threads[i])
    requires r.threads[t] == Thread(InWait(0, l), OnCond(0), {}) && r.threads[u] == k.threads[u].(place := OnCpu)
    requires r.cpu == Some(u) && r.ready == k.ready[1..] && r.locks == k.locks && r.sems == k.sems
    requires r.conds == [CondState(Some(l), k.conds[0].queue + [t])]
    ensures Enabled(k, Wait(0, Some(l))) && Next(k, Wait(0, Some(l))) == r
  {
    assert k.threads[t].held - {l} == {};
    assert DoRelease(k, t, l).threads == k.threads && DoRelease(k, t, l).locks == k.locks;
    assert DoRelease(k, t, l) == k;
    hide DoRelease;
    var k2 := Park(k.(conds := k.conds[0 := Enqueue(k.conds[0], l, t)]), t, OnCond(0), InWait(0, l));
    assert Switch(k2).threads == r.threads && k2.conds == r.conds;
  }

  lemma YieldStep(k: State, t: nat, u: nat, r: State)
    requires k.cpu == Some(t) && t < 3 == |k.threads| && k.threads[t].place == OnCpu && InterruptsOn(k)
    requires k.ready != [] && k.ready[0] == u < 3 && u != t
    requires |r.threads| == 3 && (forall i :: 0 <= i < 3 && i != t && i != u ==> r.threads[i] == k.threads[i])
    requires r.threads[t] == k.threads[t].(place := OnReady) && r.threads[u] == k.threads[u].(place := OnCpu)
    requires r == k.(cpu := Some(u), ready := k.ready[1..] + [t], threads := r.threads)
    ensures Enabled(k, Yield) && Next(k, Yield) == r
  {
  }

  const K1 := At(0, [1], (User, OnCpu), (User, OnReady), (User, Nowhere), NEW_COND)
  const K2 := At(0, [1, 2], (User, OnCpu), (User, OnReady), (User, OnReady), NEW_COND)
  const K3 := At(1, [2, 0], (User, OnReady), (User, OnCpu), (User, OnReady), NEW_COND)
  const K4 := At(2, [0], (User, OnReady), (InWait(0, 0), OnCond(0)), (User, OnCpu), CondState(Some(0), [1]))
  const K5 := At(0, [2], (User, OnCpu), (InWait(0, 0), OnCond(0)), (User, OnReady), CondState(Some(0), [1]))
  const K6 := At(0, [2], (AtTest(0, 0), OnCpu), (InWait(0, 0), OnCond(0)), (User, OnReady), CondState(Some(0), [1]))
  const K7 := At(2, [0], (AtTest(0, 0), OnReady), (InWait(0, 0), OnCond(0)), (User, OnCpu), CondState(Some(0), [1]))
  const K8 := At(2, [0, 1], (AtTest(0, 0), OnReady), (InWait(0, 0), OnReady), (User, OnCpu), NEW_COND)
  const K9 := At(0, [1], (AtTest(0, 0), OnCpu), (InWait(0, 0), OnReady), (InWait(0, 1), OnCond(0)), CondState(Some(1), [2]))

  lemma ForkSteps()
    ensures Enabled(Start(), Fork(1)) && Next(Start(), Fork(1)) == K1
    ensures Enabled(K1, Fork(2)) && Next(K1, Fork(2)) == K2
  {
    assert Next(Start(), Fork(1)).threads == K1.threads;
    assert Next(K1, Fork(2)).threads == K2.threads;
  }

  /** Thread 0 forks two threads and lets thread 1 wait under lock 0. */
  lemma OneWaits() returns (ks: seq<State>, steps: seq<Step>)
    ensures Run(ks, steps) && ks != [] && ks[|steps|] == K4
  {
    hide Next;
    ForkSteps();
    YieldStep(K2, 0, 1, K3);
    assert K3.conds[0].queue + [1] == [1];
    WaitStep(K3, 1, 0, 2, K4);
    hide Enabled;
    ks, steps := [Start(), K1, K2, K3, K4], [Fork(1), Fork(2), Yield, Wait(0, Some(0))];
  }

  lemma BroadcastAndSignal()
    ensures Enabled(K5, Broadcast(0, Some(0))) && Next(K5, Broadcast(0, Some(0))) == K6
    ensures Enabled(K7, Signal(0, Some(0))) && Next(K7, Signal(0, Some(0))) == K8
  {
    assert Next(K5, Broadcast(0, Some(0))).threads == K6.threads;
    assert Next(K7, Signal(0, Some(0))).threads == K8.threads;
  }

  /** Thread 0 enters Broadcast with lock 0; thread 2 signals the waiter and waits under lock 1. */
  lemma TheLockChanges() returns (ks: seq<State>, steps: seq<Step>)
    ensures Steps(ks, steps) && ks != [] && ks[0] == K4 && ks[|steps|] == K9
  {
    hide Next, Enabled;
    YieldStep(K4, 2, 0, K5);
    BroadcastAndSignal();
    YieldStep(K6, 0, 2, K7);
    WaitStep(K8, 2, 1, 0, K9);
    ks, steps := [K4, K5, K6, K7, K8, K9], [Yield, Broadcast(0, Some(0)), Yield, Signal(0, Some(0)), Wait(0, Some(1))];
  }

  /** From the start a state is reached in which each turn of Broadcast's loop changes nothing. */
  lemma BroadcastSpinIsReachable() returns (ks: seq<State>, steps: seq<Step>)
    ensures Run(ks, steps) && Enabled(ks[|steps|], TestQueue) && Enabled(Next(ks[|steps|], TestQueue), SignalNext)
    ensures Next(Next(ks[|steps|], TestQueue), SignalNext) == ks[|steps|]
  {
    var js, firsts := OneWaits();
    var ls, lasts := TheLockChanges();
    ks, steps := js + ls[1..], firsts + lasts;
    forall i | 0 <= i < |steps|
      ensures Enabled(ks[i], steps[i]) && ks[i + 1] == Next(ks[i], steps[i])
    {
      var j := i - |firsts|;
      assert j >= 0 ==> ks[i] == ls[j] && ks[i + 1] == ls[j + 1];
    }
    assert ks[|steps|] == K9;
    BroadcastCanSpin(K9, 0, 0, 0);
  }
}
