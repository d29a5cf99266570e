/** The interrupt simulator's own code (machine/interrupt.cc). The pending list is held as its entries;
    Lists.List is proved to keep them so. */
module InterruptSimulator {
  import opened Lists
  import opened Interrupts

  /** Scheduling does not look at the machine's status. */
  lemma {:induction false} StatusIsKept(c: Clock, status: MachineStatus, ss: seq<Sched>)
    ensures ScheduleAll(c.(status := status), ss) == ScheduleAll(c, ss).(status := status)
    ensures ScheduleAll(c, ss).status == c.status
    decreases |ss|
  {
    hide InsertSorted;
    if ss != [] {
      StatusIsKept(Schedule(c, ss[0]), status, ss[1..]);
    }
  }

  datatype IntStatus = IntOff | IntOn

  class Interrupt {
    const handlers: Handlers
    var pending: seq<Entry<Pending>>
    var level: IntStatus
    var inHandler: bool
    var yieldOnReturn: bool
    var status: MachineStatus
    var totalTicks: int
    var idleTicks: int
    var systemTicks: int
    var userTicks: int
    var calls: nat
    ghost var fired: seq<Entry<Pending>>
    ghost var firedAt: seq<int>
    ghost var scheduled: multiset<Entry<Pending>>

    ghost predicate Valid()
      reads this
    {
      calls == |fired|
    }

    ghost function State(): Clock
      reads this
    {
      Clock(totalTicks, idleTicks, systemTicks, userTicks, status, yieldOnReturn, pending, fired, firedAt, scheduled)
    }

    constructor (handlers: Handlers)
      ensures Valid() && State() == NEW_CLOCK && level == IntOff && !inHandler && this.handlers == handlers
    {
      this.handlers := handlers;
      pending := [];
      level, inHandler, yieldOnReturn, status := IntOff, false, false, SystemMode;
      totalTicks, idleTicks, systemTicks, userTicks, calls := 0, 0, 0, 0, 0;
      fired, firedAt, scheduled := [], [], multiset{};
    }

    method Schedule(what: Pending, fromNow: pos)
      requires Valid()
      modifies this`scheduled, this`pending
      ensures Valid()
      ensures State() == Interrupts.Schedule(old(State()), Sched(what, fromNow))
      ensures pending == InsertSorted(old(pending), Entry(what, totalTicks + fromNow))
    {
      var when := totalTicks + fromNow;
      pending := InsertSorted(pending, Entry(what, when));
      scheduled := scheduled + multiset{Entry(what, when)};
    }

    /** What a handler schedules, one after another. It runs in the kernel, with the flag up. */
    method ScheduleReaction(scheds: seq<Sched>)
      requires Valid() && inHandler && status == SystemMode
      modifies this`scheduled, this`pending
      ensures Valid()
      ensures State() == ScheduleAll(old(State()), scheds)
    {
      hide ScheduleAll, Interrupts.Schedule, PutBack;
      assert scheds[0..] == scheds;
      for i := 0 to |scheds|
        invariant Valid()
        invariant ScheduleAll(State(), scheds[i..]) == ScheduleAll(old(State()), scheds)
      {
        ScheduleAllUnfolds(State(), scheds, i);
        Schedule(scheds[i].what, scheds[i].fromNow);
      }
      assert scheds[|scheds|..] == [];
      NothingToSchedule(State());
    }

    /** The call of the handler: what it schedules and asks for. */
    method CallHandler(ghost e: Entry<Pending>)
      requires Valid()
      modifies this
      ensures Valid()
      ensures level == old(level) && !inHandler && State() == Fire(old(State()), e, handlers)
    {
      hide ScheduleAll;
      var before := status;
      var r := handlers(calls);
      inHandler := true;
      fired, firedAt, calls := fired + [e], firedAt + [totalTicks], calls + 1;
      if r.wantsYield {
        yieldOnReturn := true;
      }
      ghost var c := State();
      status := SystemMode;
      StatusIsKept(c, SystemMode, r.scheds);
      ScheduleReaction(r.scheds);
      status := before;
      inHandler := false;
    }

    method CheckIfDue(advanceClock: bool) returns (any: bool)
      requires Valid() && level == IntOff
      modifies this
      ensures Valid()
      ensures level == IntOff && (State(), any) == Interrupts.CheckIfDue(old(State()), advanceClock, handlers)
      ensures inHandler ==> old(inHandler)
    {
      hide Fire, InsertSorted;
      if pending == [] {
        return false;
      }
      var e := pending[0];
      pending := pending[1..];
      var when := e.key;
      if advanceClock {
        if when > totalTicks {
          idleTicks := idleTicks + (when - totalTicks);
          totalTicks := when;
        }
      } else if when > totalTicks {
        pending := InsertSorted(pending, e);
        return false;
      }
      if status == IdleMode && e.item.kind == TimerInt && pending == [] {
        pending := InsertSorted(pending, e);
        return false;
      }
      CallHandler(e);
      return true;
    }

    /** `while (CheckIfDue(FALSE));` */
    method DrainDue()
      requires Valid() && level == IntOff
      modifies this
      ensures Valid()
      ensures level == IntOff && State() == Drain(old(State()), handlers)
      ensures inHandler ==> old(inHandler)
    {
      hide Drain, Interrupts.CheckIfDue, DueCount;
      var more := true;
      while more
        invariant Valid()
        invariant level == IntOff && (inHandler ==> old(inHandler))
        invariant (if more then Drain(State(), handlers) else State()) == Drain(old(State()), handlers)
        decreases more, DueCount(pending, totalTicks)
      {
        DrainUnfolds(State(), handlers);
        more := CheckIfDue(false);
      }
    }

    /** `yielding` says whether a handler asked for a context switch. */
    method OneTick() returns (yielding: bool)
      requires Valid()
      modifies this
      ensures Valid() && level == IntOn && (inHandler ==> old(inHandler))
      ensures State() == Interrupts.OneTick(old(State()), handlers).(yieldOnReturn := false)
      ensures yielding == Interrupts.OneTick(old(State()), handlers).yieldOnReturn
    {
      hide Drain;
      if status == SystemMode {
        totalTicks := totalTicks + SYSTEM_TICK;
        systemTicks := systemTicks + SYSTEM_TICK;
      } else {
        totalTicks := totalTicks + USER_TICK;
        userTicks := userTicks + USER_TICK;
      }
      level := IntOff;
      DrainDue();
      level := IntOn;
      yielding := yieldOnReturn;
      yieldOnReturn := false;
    }

    /** Enabling interrupts advances the clock. */
    method SetLevel(now: IntStatus) returns (was: IntStatus, yielding: bool)
      requires Valid() && (now == IntOff || !inHandler)
      modifies this
      ensures Valid() && level == now && was == old(level) && (inHandler ==> old(inHandler))
      ensures State() == if now == IntOn && was == IntOff then Interrupts.OneTick(old(State()), handlers).(yieldOnReturn := false)
                         else old(State())
    {
      was, yielding := level, false;
      level := now;
      if now == IntOn && was == IntOff {
        yielding := OneTick();
      }
    }

    /** Returns whether to look for a ready thread; if not, the machine halts. */
    method Idle() returns (goOn: bool)
      requires Valid() && level == IntOff
      modifies this
      ensures Valid() && (State(), goOn) == Interrupts.Idle(old(State()), handlers)
      ensures level == IntOff && (inHandler ==> old(inHandler))
    {
      hide Drain, Interrupts.CheckIfDue;
      status := IdleMode;
      goOn := CheckIfDue(true);
      if goOn {
        DrainDue();
        yieldOnReturn := false;
        status := SystemMode;
      }
    }
  }
}
