/** The ready list, the running thread and the threads' states, updated in place
    (threads/scheduler.cc, threads/thread.cc). Each method follows a step of the kernel's model. */
module Schedulers {
  import opened Options
  import opened Kernel

  datatype ThreadStatus = JUST_CREATED | RUNNING | READY | BLOCKED

  function StatusOf(th: Thread): ThreadStatus {
    match th.place
    case OnCpu => RUNNING
    case OnReady => READY
    case Nowhere => if th.pc.Finished? then BLOCKED else JUST_CREATED
    case _ => BLOCKED
  }

  class Scheduler {
    var readyList: seq<nat>
    var currentThread: nat
    const status: array<ThreadStatus>

    /** The object holds what the model's state `k` says. */
    ghost predicate Shows(k: State)
      reads this, status
    {
      && status.Length == |k.threads| && currentThread < status.Length && readyList == k.ready
      && (forall t :: 0 <= t < |k.threads| ==> status[t] == StatusOf(k.threads[t]))
      && (k.cpu.Some? ==> k.cpu.value == currentThread)
      && forall i :: 0 <= i < |k.ready| ==> k.ready[i] < |k.threads|
    }

    /** Initialize: the main thread is running. */
    constructor (numThreads: nat, ghost k: State)
      requires numThreads > 0 && |k.threads| == numThreads && Initial(k)
      ensures Shows(k) && fresh(status)
    {
      readyList, currentThread := [], 0;
      status := new ThreadStatus[numThreads](t => if t == 0 then RUNNING else JUST_CREATED);
    }

    method ReadyToRun(thread: nat, ghost k: State)
      requires Shows(k) && thread < |k.threads|
      modifies this`readyList, status
      ensures Shows(MakeReady(k, thread))
    {
      status[thread] := READY;
      readyList := readyList + [thread];
    }

    method FindNextToRun() returns (thread: Option<nat>)
      modifies this`readyList
      ensures thread == if old(readyList) == [] then None else Some(old(readyList)[0])
      ensures readyList == if old(readyList) == [] then [] else old(readyList)[1..]
    {
      if readyList == [] {
        return None;
      }
      thread := Some(readyList[0]);
      readyList := readyList[1..];
    }

    /** Run, up to the context switch. */
    method Run(nextThread: nat)
      requires nextThread < status.Length
      modifies this`currentThread, status
      ensures currentThread == nextThread && status[..] == old(status[..])[nextThread := RUNNING]
    {
      currentThread := nextThread;
      status[currentThread] := RUNNING;
    }

    method Fork(thread: nat, ghost k: State)
      requires Shows(k) && Enabled(k, Step.Fork(thread))
      modifies this`readyList, status
      ensures Shows(Next(k, Step.Fork(thread)))
    {
      ReadyToRun(thread, k);
    }

    /** Gives up the CPU if another thread is ready. */
    method Yield(ghost k: State)
      requires Shows(k) && Enabled(k, Step.Yield)
      modifies this, status
      ensures Shows(Next(k, Step.Yield))
    {
      var nextThread := FindNextToRun();
      if nextThread.Some? {
        ghost var k1 := MakeReady(k.(cpu := None), currentThread);
        ghost var before := status[..];
        status[currentThread] := READY;
        readyList := readyList + [currentThread];
        assert readyList == k1.ready[1..];
        Run(nextThread.value);
      }
    }

    /** The running thread has been put on a queue, which gives state `k`. Returns whether another
        thread has the CPU; if not, the caller idles until an interrupt and looks again. */
    method Sleep(ghost k: State, ghost was: State)
      returns (switched: bool)
      requires Shows(was) && was.cpu == Some(currentThread)
      requires k.cpu == None && k.ready == was.ready && |k.threads| == |was.threads|
      requires StatusOf(k.threads[currentThread]) == BLOCKED
      requires forall t :: 0 <= t < |k.threads| && t != currentThread ==> k.threads[t] == was.threads[t]
      modifies this, status
      ensures Shows(Switch(k)) && switched == Switch(k).cpu.Some?
    {
      status[currentThread] := BLOCKED;
      var nextThread := FindNextToRun();
      if nextThread == None {
        return false;
      }
      Run(nextThread.value);
      return true;
    }

    /** Sleep's loop goes round after an interrupt. */
    method LookAgain(ghost k: State) returns (switched: bool)
      requires Shows(k) && k.cpu == None
      modifies this, status
      ensures Shows(Switch(k)) && switched == Switch(k).cpu.Some?
    {
      var nextThread := FindNextToRun();
      if nextThread == None {
        return false;
      }
      Run(nextThread.value);
      return true;
    }

    method Finish(ghost k: State) returns (switched: bool)
      requires Shows(k) && Enabled(k, Step.Finish)
      modifies this, status
      ensures Shows(Next(k, Step.Finish)) && switched == Next(k, Step.Finish).cpu.Some?
    {
      switched := Sleep(Park(k, currentThread, Nowhere, Finished), k);
    }
  }
}
