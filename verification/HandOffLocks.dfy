/** Locks that are handed over in first-come order: the abstract lock, and the kernel's own
    (class Lock, threads/synch.cc), which carries a status, an owner and a queue of sleepers. */
module HandOffLocks {
  import opened Options

  // ---------- The abstract lock ----------

  /** Whom the lock has been granted to, in order, and who is waiting, in order. The last one
      granted owns the lock while it is held. */
  datatype Fifo<T> = Fifo(granted: seq<T>, waiting: seq<T>, held: bool)

  predicate FifoOk<T>(f: Fifo<T>) {
    (f.held ==> f.granted != []) && (!f.held ==> f.waiting == [])
  }

  function Owner<T>(f: Fifo<T>): Option<T>
    requires FifoOk(f)
  {
    if f.held then Some(f.granted[|f.granted| - 1]) else None
  }

  /** `t` asks for the lock. */
  function Arrive<T(==)>(f: Fifo<T>, t: T): Fifo<T>
    requires FifoOk(f)
  {
    if Owner(f) == Some(t) then f
    else if f.held then f.(waiting := f.waiting + [t])
    else f.(granted := f.granted + [t], held := true)
  }

  /** `t` gives the lock up: the longest waiter gets it. */
  function Leave<T(==)>(f: Fifo<T>, t: T): Fifo<T>
    requires FifoOk(f)
  {
    if Owner(f) != Some(t) then f
    else if f.waiting != [] then Fifo(f.granted + [f.waiting[0]], f.waiting[1..], true)
    else f.(held := false)
  }

  datatype Event<T> = Arrives(who: T) | Leaves(who: T)

  function FifoNext<T(==)>(f: Fifo<T>, e: Event<T>): Fifo<T>
    requires FifoOk(f)
  {
    match e
    case Arrives(t) => Arrive(f, t)
    case Leaves(t) => Leave(f, t)
  }

  function FifoAfter<T(==)>(f: Fifo<T>, es: seq<Event<T>>): (r: Fifo<T>)
    requires FifoOk(f)
    ensures FifoOk(r)
    decreases |es|
  {
    if es == [] then f else FifoNext(FifoAfter(f, es[..|es| - 1]), es[|es| - 1])
  }

  /** Those that asked for the lock while not owning it, in order. */
  function Arrivals<T(==)>(f: Fifo<T>, es: seq<Event<T>>): seq<T>
    requires FifoOk(f)
    decreases |es|
  {
    if es == [] then []
    else
      var n := |es| - 1;
      var e := es[n];
      Arrivals(f, es[..n]) + if e.Arrives? && Owner(FifoAfter(f, es[..n])) != Some(e.who) then [e.who] else []
  }

  /** One event appends an arrival to those granted and waiting, or leaves them in order. */
  lemma NextKeepsOrder<T>(f: Fifo<T>, e: Event<T>)
    requires FifoOk(f)
    ensures var r := FifoNext(f, e);
            r.granted + r.waiting ==
              f.granted + f.waiting + if e.Arrives? && Owner(f) != Some(e.who) then [e.who] else []
  {
  }

  /** Every arrival is granted exactly once, in order of arrival: those granted and then those
      waiting are the arrivals. */
  lemma {:induction false} GrantedInArrivalOrder<T>(f: Fifo<T>, es: seq<Event<T>>)
    requires FifoOk(f)
    ensures var r := FifoAfter(f, es); r.granted + r.waiting == f.granted + f.waiting + Arrivals(f, es)
    decreases |es|
  {
    if es != [] {
      var n := |es| - 1;
      GrantedInArrivalOrder(f, es[..n]);
      NextKeepsOrder(FifoAfter(f, es[..n]), es[n]);
    }
  }

  /** Only the owner's leaving moves a held lock on. */
  lemma OnlyOwnerMovesIt<T>(f: Fifo<T>, e: Event<T>)
    requires FifoOk(f) && f.held && Owner(FifoNext(f, e)) != Owner(f)
    ensures e == Leaves(Owner(f).value)
  {
  }

  // ---------- The kernel's lock ----------

  datatype LockStatus = FREE | BUSY

  datatype LockState = LockState(status: LockStatus, owner: Option<nat>, queue: seq<nat>)

  const NEW_LOCK := LockState(FREE, None, [])

  /** Lock::Acquire up to the point where it returns (false) or sleeps (true). */
  function AcquireLock(l: LockState, t: nat): (r: (LockState, bool)) {
    if l.owner == Some(t) then (l, false)
    else if l.status == FREE then (l.(status := BUSY, owner := Some(t)), false)
    else (l.(queue := l.queue + [t]), true)
  }

  /** Lock::Release, and the thread it makes ready. */
  function ReleaseLock(l: LockState, t: nat): (r: (LockState, Option<nat>)) {
    if l.owner != Some(t) then (l, None)
    else if l.queue != [] then (l.(owner := Some(l.queue[0]), queue := l.queue[1..]), Some(l.queue[0]))
    else (l.(status := FREE, owner := None), None)
  }

  /** The kernel's lock stands for this abstract lock. */
  ghost predicate Represents(l: LockState, f: Fifo<nat>) {
    FifoOk(f) && l.queue == f.waiting && (l.status == BUSY <==> f.held) && l.owner == Owner(f)
  }

  lemma AcquireRefines(l: LockState, f: Fifo<nat>, t: nat)
    requires Represents(l, f)
    ensures Represents(AcquireLock(l, t).0, Arrive(f, t))
    ensures AcquireLock(l, t).1 <==> Owner(Arrive(f, t)) != Some(t)
  {
  }

  lemma ReleaseRefines(l: LockState, f: Fifo<nat>, t: nat)
    requires Represents(l, f)
    ensures Represents(ReleaseLock(l, t).0, Leave(f, t))
    ensures ReleaseLock(l, t).1.Some? <==> Leave(f, t).granted != f.granted
    ensures ReleaseLock(l, t).1.Some? ==> Owner(Leave(f, t)) == ReleaseLock(l, t).1
  {
  }

  class Lock {
    var lockStatus: LockStatus
    var lockOwner: Option<nat>
    var waitQueue: seq<nat>

    ghost function State(): LockState
      reads this
    {
      LockState(lockStatus, lockOwner, waitQueue)
    }

    constructor ()
      ensures State() == NEW_LOCK && Represents(State(), Fifo([], [], false))
    {
      lockStatus, lockOwner, waitQueue := FREE, None, [];
    }

    /** Up to the return, or the call of Sleep. */
    method Acquire(currentThread: nat) returns (sleeps: bool)
      modifies this
      ensures (State(), sleeps) == AcquireLock(old(State()), currentThread)
    {
      if lockOwner == Some(currentThread) {
        return false;
      }
      if lockStatus == FREE {
        lockStatus := BUSY;
        lockOwner := Some(currentThread);
        return false;
      }
      waitQueue := waitQueue + [currentThread];
      return true;
    }

    /** `ready` is the thread passed to ReadyToRun, if any. */
    method Release(currentThread: nat) returns (ready: Option<nat>)
      modifies this
      ensures (State(), ready) == ReleaseLock(old(State()), currentThread)
    {
      if lockOwner != Some(currentThread) {
        return None;
      }
      if waitQueue != [] {
        var thread := waitQueue[0];
        waitQueue := waitQueue[1..];
        lockOwner := Some(thread);
        return Some(thread);
      }
      lockStatus := FREE;
      lockOwner := None;
      return None;
    }
  }
}
