/** The kernel's semaphores and condition variables (threads/synch.cc) as the sequences of
    changes that one call makes with interrupts off. */
module Synch {
  import opened Options

  // ---------- Semaphores ----------

  /** `initial`, `ups` and `downs` are history: the value it was made with, the V's done and the P's done. */
  datatype SemState = SemState(value: int, queue: seq<nat>, initial: int, ups: nat, downs: nat)

  function NewSem(initial: int): SemState {
    SemState(initial, [], initial, 0, 0)
  }

  /** One pass of P's loop: it sleeps (true), or takes one and is done. */
  function TryDown(s: SemState, t: nat): (r: (SemState, bool)) {
    if s.value == 0 then (s.(queue := s.queue + [t]), true)
    else (s.(value := s.value - 1, downs := s.downs + 1), false)
  }

  /** V, and the thread it makes ready. */
  function Up(s: SemState): (r: (SemState, Option<nat>)) {
    var after := s.(value := s.value + 1, ups := s.ups + 1);
    if s.queue == [] then (after, None) else (after.(queue := s.queue[1..]), Some(s.queue[0]))
  }

  class Semaphore {
    var value: int
    var queue: seq<nat>
    ghost var initial: int
    ghost var ups: nat
    ghost var downs: nat

    ghost function State(): SemState
      reads this
    {
      SemState(value, queue, initial, ups, downs)
    }

    constructor (initialValue: int)
      ensures State() == NewSem(initialValue)
    {
      value, queue, initial, ups, downs := initialValue, [], initialValue, 0, 0;
    }

    /** From the test of the value to the next one, or to the end of P. */
    method P(currentThread: nat) returns (sleeps: bool)
      modifies this
      ensures (State(), sleeps) == TryDown(old(State()), currentThread)
    {
      if value == 0 {
        queue := queue + [currentThread];
        return true;
      }
      value := value - 1;
      downs := downs + 1;
      return false;
    }

    method V() returns (ready: Option<nat>)
      modifies this
      ensures (State(), ready) == Up(old(State()))
    {
      ready := None;
      if queue != [] {
        ready := Some(queue[0]);
        queue := queue[1..];
      }
      value := value + 1;
      ups := ups + 1;
    }
  }

  // ---------- Condition variables ----------

  datatype CondState = CondState(waitingLock: Option<nat>, queue: seq<nat>)

  const NEW_COND := CondState(None, [])

  /** Whether Wait with this lock goes on to queue the caller, rather than return at once. */
  predicate Accepts(c: CondState, lock: Option<nat>) {
    lock.Some? && (c.waitingLock == None || c.waitingLock == lock)
  }

  function Enqueue(c: CondState, lock: nat, t: nat): CondState
    requires Accepts(c, Some(lock))
  {
    CondState(Some(lock), c.queue + [t])
  }

  /** Signal, and the thread it makes ready. */
  function TakeOne(c: CondState, lock: Option<nat>): (r: (CondState, Option<nat>)) {
    if c.queue == [] || c.waitingLock != lock then (c, None)
    else (CondState(if c.queue[1..] == [] then None else c.waitingLock, c.queue[1..]), Some(c.queue[0]))
  }

  /** Whether Broadcast with this lock enters its loop. */
  predicate Matching(c: CondState, lock: Option<nat>) {
    lock.Some? && lock == c.waitingLock
  }

  class Condition {
    var waitingLock: Option<nat>
    var waitQueue: seq<nat>

    ghost function State(): CondState
      reads this
    {
      CondState(waitingLock, waitQueue)
    }

    constructor ()
      ensures State() == NEW_COND
    {
      waitingLock, waitQueue := None, [];
    }

    /** Up to the return, or the release of the lock and the call of Sleep. */
    method Wait(conditionLock: Option<nat>, currentThread: nat) returns (sleeps: bool)
      modifies this
      ensures sleeps <==> conditionLock.Some? && (old(waitingLock) == None || old(waitingLock) == conditionLock)
      ensures sleeps <==> Accepts(old(State()), conditionLock)
      ensures State() == if sleeps then Enqueue(old(State()), conditionLock.value, currentThread) else old(State())
    {
      if conditionLock == None {
        return false;
      }
      if waitingLock == None {
        waitingLock := conditionLock;
      }
      if waitingLock != conditionLock {
        return false;
      }
      waitQueue := waitQueue + [currentThread];
      return true;
    }

    method Signal(conditionLock: Option<nat>) returns (ready: Option<nat>)
      modifies this
      ensures (State(), ready) == TakeOne(old(State()), conditionLock)
    {
      if waitQueue == [] {
        return None;
      }
      if waitingLock != conditionLock {
        return None;
      }
      ready := Some(waitQueue[0]);
      waitQueue := waitQueue[1..];
      if waitQueue == [] {
        waitingLock := None;
      }
    }
  }
}
