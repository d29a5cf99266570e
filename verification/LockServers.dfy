/** The lock server's own code, updating its array of locks (network/nettest.cc). */
module LockServers {
  import opened Options
  import opened HandOffLocks
  import opened TextStreams
  import opened LockServer

  class Server {
    const serverLocks: array<ServerLock>
    var serverLockCount: nat

    ghost predicate Valid()
      reads this
    {
      serverLocks.Length == MAX_LOCK_COUNT && serverLockCount <= MAX_LOCK_COUNT
    }

    ghost function State(): seq<ServerLock>
      requires Valid()
      reads this, serverLocks
    {
      serverLocks[..serverLockCount]
    }

    constructor ()
      ensures Valid() && fresh(serverLocks) && State() == []
    {
      serverLocks := new ServerLock[MAX_LOCK_COUNT](_ => NewLock(""));
      serverLockCount := 0;
    }

    method ValidateLockIndex(lockIndex: int) returns (ok: bool)
      requires Valid()
      ensures ok == ValidIndex(State(), lockIndex)
    {
      if lockIndex < 0 || lockIndex >= serverLockCount {
        return false;
      }
      if serverLocks[lockIndex].isDeleted {
        return false;
      }
      return true;
    }

    method CreateLock(name: string, r: Request) returns (replies: seq<Reply>)
      requires Valid()
      modifies this`serverLockCount, serverLocks
      ensures Valid() && (State(), replies) == DoCreate(old(State()), r, name)
    {
      if serverLockCount >= MAX_LOCK_COUNT {
        return [Answer(r.who, r.box, "Too many locks!"), Answer(Client(r.who.machineId, r.box), r.who.mailboxNum, ShowInt(-1))];
      }
      for i := 0 to serverLockCount
        invariant FindName(State(), name, 0) == FindName(State(), name, i)
      {
        if serverLocks[i].name == name && !serverLocks[i].isDeleted {
          return [Answer(r.who, r.box, ShowInt(i))];
        }
      }
      var currentLockIndex := serverLockCount;
      serverLocks[serverLockCount] := NewLock(name);
      serverLockCount := serverLockCount + 1;
      assert State() == old(State()) + [NewLock(name)];
      return [Answer(r.who, r.box, ShowInt(currentLockIndex))];
    }

    method AcquireLock(lockIndex: int, r: Request) returns (replies: seq<Reply>)
      requires Valid()
      modifies serverLocks
      ensures Valid() && (State(), replies) == DoAcquire(old(State()), r, lockIndex)
    {
      var ok := ValidateLockIndex(lockIndex);
      if !ok {
        return [Answer(r.who, r.box, "Invalid lock index!")];
      }
      if r.who == serverLocks[lockIndex].owner {
        return [Answer(r.who, r.box, "Lock is yours. Done nothing.")];
      }
      if serverLocks[lockIndex].status == FREE {
        serverLocks[lockIndex] := serverLocks[lockIndex].(status := BUSY);
        serverLocks[lockIndex] := serverLocks[lockIndex].(owner := r.who);
        assert State() == old(State())[lockIndex := old(State())[lockIndex].(status := BUSY, owner := r.who)];
        return [Answer(r.who, r.box, GRANTED)];
      }
      serverLocks[lockIndex] := serverLocks[lockIndex].(queue := serverLocks[lockIndex].queue + [WaiterText(r.who, r.box)]);
      return [];
    }

    method ReleaseLock(lockIndex: int, r: Request) returns (replies: seq<Reply>)
      requires Valid()
      modifies serverLocks
      ensures Valid() && (State(), replies) == DoRelease(old(State()), r, lockIndex)
    {
      var ok := ValidateLockIndex(lockIndex);
      if !ok {
        return [Answer(r.who, r.box, "Invalid lock index!")];
      }
      if r.who != serverLocks[lockIndex].owner {
        return [Answer(r.who, r.box, "No permission to release!")];
      }
      var box := serverLocks[lockIndex].owner.mailboxNum;
      if serverLocks[lockIndex].deleteFlag {
        serverLocks[lockIndex] := serverLocks[lockIndex].(isDeleted := true);
        return [Answer(r.who, box, "Released, the lock is also deleted.")];
      }
      if serverLocks[lockIndex].queue != [] {
        var msg := serverLocks[lockIndex].queue[0];
        serverLocks[lockIndex] := serverLocks[lockIndex].(queue := serverLocks[lockIndex].queue[1..]);
        var (next, from) := ReadWaiter(msg);
        serverLocks[lockIndex] := serverLocks[lockIndex].(owner := next);
        assert State() == old(State())[lockIndex := old(State())[lockIndex].(owner := next, queue := old(State())[lockIndex].queue[1..])];
        return [Answer(r.who, box, "Released. Another thread took it."), Answer(next, from, GRANTED)];
      }
      serverLocks[lockIndex] := serverLocks[lockIndex].(status := FREE);
      serverLocks[lockIndex] := serverLocks[lockIndex].(owner := NOBODY);
      assert State() == old(State())[lockIndex := old(State())[lockIndex].(status := FREE, owner := NOBODY)];
      return [Answer(r.who, box, "You released the lock!")];
    }

    method DestroyLock(lockIndex: int, r: Request) returns (replies: seq<Reply>)
      requires Valid()
      modifies serverLocks
      ensures Valid() && (State(), replies) == DoDestroy(old(State()), r, lockIndex)
    {
      var ok := ValidateLockIndex(lockIndex);
      if !ok {
        return [Answer(r.who, r.box, "Invalid lock index!")];
      }
      if serverLocks[lockIndex].status == BUSY {
        serverLocks[lockIndex] := serverLocks[lockIndex].(deleteFlag := true);
        return [Answer(Client(r.who.machineId, r.box), serverLocks[lockIndex].owner.mailboxNum,
                       "Lock is in use will be destroyed later.")];
      }
      serverLocks[lockIndex] := serverLocks[lockIndex].(status := FREE, owner := NOBODY);
      serverLocks[lockIndex] := serverLocks[lockIndex].(isDeleted := true);
      assert State() == old(State())[lockIndex := old(State())[lockIndex].(status := FREE, owner := NOBODY, isDeleted := true)];
      return [Answer(r.who, r.box, "You destroyed the lock!")];
    }

    /** One turn of the server's loop, for a lock request. */
    method Serve(r: Request) returns (replies: seq<Reply>)
      requires Valid()
      modifies this`serverLockCount, serverLocks
      ensures Valid() && (State(), replies) == Handle(old(State()), r)
    {
      match r.call {
        case Create(name) => replies := CreateLock(name, r);
        case Acquire(i) => replies := AcquireLock(i, r);
        case Release(i) => replies := ReleaseLock(i, r);
        case Destroy(i) => replies := DestroyLock(i, r);
      }
    }
  }
}
