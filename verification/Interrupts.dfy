/** The simulated clock and its pending interrupts (machine/interrupt.cc). What the handlers do is
    a parameter: the n-th handler called may schedule any interrupts in the future. Time does not
    overflow. */
module Interrupts {
  import opened Options
  import opened Lists

  const USER_TICK := 1
  const SYSTEM_TICK := 10

  datatype IntType = TimerInt | DiskInt | ConsoleWriteInt | ConsoleReadInt | NetworkSendInt | NetworkRecvInt

  datatype Pending = Pending(id: nat, kind: IntType)

  type pos = n: nat | n > 0 witness 1

  datatype Sched = Sched(what: Pending, fromNow: pos)

  datatype Reaction = Reaction(scheds: seq<Sched>, wantsYield: bool)

  type Handlers = nat -> Reaction

  datatype MachineStatus = IdleMode | SystemMode | UserMode

  /** `fired`, `firedAt` and `scheduled` are history. */
  datatype Clock = Clock(
    total: int, idle: int, system: int, user: int, status: MachineStatus, yieldOnReturn: bool,
    pending: seq<Entry<Pending>>, fired: seq<Entry<Pending>>, firedAt: seq<int>, scheduled: multiset<Entry<Pending>>)

  const NEW_CLOCK := Clock(0, 0, 0, 0, SystemMode, false, [], [], [], multiset{})

  // ---------- The operations ----------

  function PutBack(c: Clock, e: Entry<Pending>): Clock {
    c.(pending := InsertSorted(c.pending, e))
  }

  function Schedule(c: Clock, s: Sched): Clock {
    var e := Entry(s.what, c.total + s.fromNow);
    PutBack(c, e).(scheduled := c.scheduled + multiset{e})
  }

  function ScheduleAll(c: Clock, ss: seq<Sched>): Clock
    decreases |ss|
  {
    if ss == [] then c else ScheduleAll(Schedule(c, ss[0]), ss[1..])
  }

  /** Calls the handler of `e`, which has been taken off the list. */
  function Fire(c: Clock, e: Entry<Pending>, h: Handlers): Clock {
    var r := h(|c.fired|);
    ScheduleAll(c.(fired := c.fired + [e], firedAt := c.firedAt + [c.total],
                   yieldOnReturn := c.yieldOnReturn || r.wantsYield), r.scheds)
  }

  /** The clock moved on to the time of `e`, which has been taken off the list. */
  function Advance(c: Clock, e: Entry<Pending>): Clock {
    if e.key > c.total then c.(idle := c.idle + (e.key - c.total), total := e.key) else c
  }

  function CheckIfDue(c: Clock, advanceClock: bool, h: Handlers): (r: (Clock, bool)) {
    if c.pending == [] then (c, false)
    else
      var e := c.pending[0];
      var rest := c.(pending := c.pending[1..]);
      if !advanceClock && e.key > c.total then (PutBack(rest, e), false)
      else
        var now := if advanceClock then Advance(rest, e) else rest;
        if now.status == IdleMode && e.item.kind == TimerInt && now.pending == [] then (PutBack(now, e), false)
        else (Fire(now, e, h), true)
  }

  function DueCount(es: seq<Entry<Pending>>, now: int): nat {
    if es == [] then 0 else (if es[0].key <= now then 1 else 0) + DueCount(es[1..], now)
  }

  /** `while (CheckIfDue(FALSE));` */
  function Drain(c: Clock, h: Handlers): Clock
    decreases DueCount(c.pending, c.total)
  {
    FiringUsesUpDue(c, h);
    var (d, more) := CheckIfDue(c, false, h);
    if more then Drain(d, h) else d
  }

  /** The clock moved on by one tick. */
  function Ticked(c: Clock): Clock {
    if c.status == SystemMode then c.(total := c.total + SYSTEM_TICK, system := c.system + SYSTEM_TICK)
    else c.(total := c.total + USER_TICK, user := c.user + USER_TICK)
  }

  function OneTick(c: Clock, h: Handlers): Clock {
    Drain(Ticked(c), h)
  }

  /** Idle, and whether it returns to look for a ready thread rather than halt. */
  function Idle(c: Clock, h: Handlers): (r: (Clock, bool)) {
    var (d, found) := CheckIfDue(c.(status := IdleMode), true, h);
    if found then (Drain(d, h).(yieldOnReturn := false, status := SystemMode), true) else (d, false)
  }

  // ---------- What is due ----------

  lemma {:induction false} InsertLater(es: seq<Entry<Pending>>, e: Entry<Pending>, now: int)
    ensures DueCount(InsertSorted(es, e), now) == DueCount(es, now) + if e.key <= now then 1 else 0
  {
    if es != [] && es[0].key <= e.key {
      InsertLater(es[1..], e, now);
    }
  }

  /** What handlers schedule is in the future, so it is not due. */
  lemma {:induction false} SchedulingAddsNothingDue(c: Clock, ss: seq<Sched>)
    ensures var r := ScheduleAll(c, ss);
            DueCount(r.pending, c.total) == DueCount(c.pending, c.total) && r.total == c.total && r.status == c.status
    decreases |ss|
  {
    if ss != [] {
      InsertLater(c.pending, Entry(ss[0].what, c.total + ss[0].fromNow), c.total);
      SchedulingAddsNothingDue(Schedule(c, ss[0]), ss[1..]);
    }
  }

  lemma FiringUsesUpDue(c: Clock, h: Handlers)
    ensures var (d, more) := CheckIfDue(c, false, h);
            && d.total == c.total && d.status == c.status
            && (more ==> DueCount(d.pending, d.total) < DueCount(c.pending, c.total))
  {
    if c.pending != [] && c.pending[0].key <= c.total {
      var e := c.pending[0];
      var rest := c.(pending := c.pending[1..]);
      var r := h(|c.fired|);
      SchedulingAddsNothingDue(rest.(fired := c.fired + [e], firedAt := c.firedAt + [c.total],
                                     yieldOnReturn := c.yieldOnReturn || r.wantsYield), r.scheds);
    }
  }

  lemma DrainUnfolds(c: Clock, h: Handlers)
    ensures var (d, more) := CheckIfDue(c, false, h);
            Drain(c, h) == (if more then Drain(d, h) else d)
            && (more ==> DueCount(d.pending, d.total) < DueCount(c.pending, c.total))
  {
    FiringUsesUpDue(c, h);
  }

  lemma ScheduleAllUnfolds(c: Clock, ss: seq<Sched>, i: nat)
    requires i < |ss|
    ensures ScheduleAll(c, ss[i..]) == ScheduleAll(Schedule(c, ss[i]), ss[i + 1..])
  {
  }

  lemma NothingToSchedule(c: Clock)
    ensures ScheduleAll(c, []) == c
  {
  }

  // ---------- The invariant ----------

  /** Each interrupt scheduled has fired once or is pending. */
  ghost predicate Conserved(c: Clock) {
    c.scheduled == multiset(c.fired) + multiset(c.pending)
  }

  /** Interrupts fire in order of their times, and none pending is before one fired. */
  ghost predicate InOrder(c: Clock) {
    && SortedByKey(c.pending) && SortedByKey(c.fired)
    && (forall i, j :: 0 <= i < |c.fired| && 0 <= j < |c.pending| ==> c.fired[i].key <= c.pending[j].key)
  }

  /** None fires early. */
  ghost predicate OnTime(c: Clock) {
    && |c.firedAt| == |c.fired|
    && (forall i :: 0 <= i < |c.fired| ==> c.fired[i].key <= c.firedAt[i] <= c.total)
  }

  ghost predicate ClockInv(c: Clock) {
    c.total == c.idle + c.system + c.user && Conserved(c) && InOrder(c) && OnTime(c)
  }

  lemma ScheduleKeepsInv(c: Clock, s: Sched)
    requires ClockInv(c)
    ensures ClockInv(Schedule(c, s))
  {
    var e := Entry(s.what, c.total + s.fromNow);
    InsertKeepsInv(c, e);
  }

  lemma InsertKeepsOrder(c: Clock, e: Entry<Pending>)
    requires InOrder(c) && forall i :: 0 <= i < |c.fired| ==> c.fired[i].key <= e.key
    ensures InOrder(PutBack(c, e))
  {
    InsertSortedKeepsOrder(c.pending, e);
    var k := InsertSortedSplits(c.pending, e);
    var es := InsertSorted(c.pending, e);
    forall i, j | 0 <= i < |c.fired| && 0 <= j < |es|
      ensures c.fired[i].key <= es[j].key
    {
      assert es[j] == if j < k then c.pending[j] else if j == k then e else c.pending[j - 1];
    }
  }

  /** Putting in an entry that is not before any fired one. */
  lemma InsertKeepsInv(c: Clock, e: Entry<Pending>)
    requires ClockInv(c) && forall i :: 0 <= i < |c.fired| ==> c.fired[i].key <= e.key
    ensures ClockInv(PutBack(c, e).(scheduled := c.scheduled + multiset{e}))
  {
    hide InOrder, InsertSorted, PutBack;
    var r := PutBack(c, e).(scheduled := c.scheduled + multiset{e});
    PutBackFields(c, e);
    InsertKeepsOrder(c, e);
    OrderOfLists(PutBack(c, e), r);
    InsertSortedAddsOne(c.pending, e);
  }

  lemma OrderOfLists(c: Clock, d: Clock)
    requires InOrder(c) && d.pending == c.pending && d.fired == c.fired
    ensures InOrder(d)
  {
  }

  lemma {:induction false} ScheduleAllKeepsInv(c: Clock, ss: seq<Sched>)
    requires ClockInv(c)
    ensures ClockInv(ScheduleAll(c, ss))
    decreases |ss|
  {
    if ss != [] {
      ScheduleKeepsInv(c, ss[0]);
      ScheduleAllKeepsInv(Schedule(c, ss[0]), ss[1..]);
    }
  }

  lemma FiredOrder(c: Clock, d: Clock)
    requires InOrder(c) && c.pending != [] && d.pending == c.pending[1..] && d.fired == c.fired + [c.pending[0]]
    ensures InOrder(d)
  {
  }

  /** The earliest entry, when it is due, passes from pending to fired. */
  lemma FiredInv(c: Clock, wantsYield: bool)
    requires ClockInv(c) && c.pending != [] && c.pending[0].key <= c.total
    ensures ClockInv(c.(pending := c.pending[1..], fired := c.fired + [c.pending[0]], firedAt := c.firedAt + [c.total],
                        yieldOnReturn := wantsYield))
  {
    var d := c.(pending := c.pending[1..], fired := c.fired + [c.pending[0]], firedAt := c.firedAt + [c.total],
                yieldOnReturn := wantsYield);
    FiredOrder(c, d);
    FiredConserves(c, d);
    hide InOrder, Conserved;
  }

  lemma FiredConserves(c: Clock, d: Clock)
    requires Conserved(c) && c.pending != [] && d.pending == c.pending[1..] && d.fired == c.fired + [c.pending[0]]
    requires d.scheduled == c.scheduled
    ensures Conserved(d)
  {
    assert c.pending == [c.pending[0]] + c.pending[1..];
  }

  lemma FireKeepsInv(c: Clock, h: Handlers)
    requires ClockInv(c) && c.pending != [] && c.pending[0].key <= c.total
    ensures ClockInv(Fire(c.(pending := c.pending[1..]), c.pending[0], h))
  {
    var r := h(|c.fired|);
    FiredInv(c, c.yieldOnReturn || r.wantsYield);
    hide ClockInv, ScheduleAll;
    ScheduleAllKeepsInv(c.(pending := c.pending[1..], fired := c.fired + [c.pending[0]], firedAt := c.firedAt + [c.total],
                           yieldOnReturn := c.yieldOnReturn || r.wantsYield), r.scheds);
  }

  lemma RestInOrder(c: Clock)
    requires InOrder(c) && c.pending != []
    ensures InOrder(c.(pending := c.pending[1..]))
  {
  }

  lemma PutBackConserves(es: seq<Entry<Pending>>)
    requires es != []
    ensures multiset(InsertSorted(es[1..], es[0])) == multiset(es)
  {
    assert es == [es[0]] + es[1..];
    InsertSortedAddsOne(es[1..], es[0]);
  }

  lemma PutBackFields(c: Clock, e: Entry<Pending>)
    ensures PutBack(c, e) == c.(pending := InsertSorted(c.pending, e))
  {
  }

  lemma PutBackOrder(c: Clock)
    requires InOrder(c) && c.pending != []
    ensures InOrder(PutBack(c.(pending := c.pending[1..]), c.pending[0]))
  {
    assert forall i :: 0 <= i < |c.fired| ==> c.fired[i].key <= c.pending[0].key;
    RestInOrder(c);
    InsertKeepsOrder(c.(pending := c.pending[1..]), c.pending[0]);
  }

  /** Taking the earliest entry off and putting it back keeps the same entries in order. */
  lemma PutBackKeepsInv(c: Clock)
    requires ClockInv(c) && c.pending != []
    ensures ClockInv(PutBack(c.(pending := c.pending[1..]), c.pending[0]))
  {
    hide PutBack, InsertSorted, InOrder;
    PutBackOrder(c);
    PutBackFields(c.(pending := c.pending[1..]), c.pending[0]);
    PutBackConserves(c.pending);
  }

  lemma AdvanceKeepsInv(c: Clock)
    requires ClockInv(c) && c.pending != []
    ensures ClockInv(Advance(c, c.pending[0])) && c.pending[0].key <= Advance(c, c.pending[0]).total
  {
  }

  /** The clock at which CheckIfDue looks at the earliest entry. */
  function Moved(c: Clock, advanceClock: bool): Clock
    requires c.pending != []
  {
    if advanceClock then Advance(c, c.pending[0]) else c
  }

  /** CheckIfDue puts the earliest entry back or fires it. */
  lemma CheckCases(c: Clock, advanceClock: bool, h: Handlers)
    requires c.pending != []
    ensures var now := Moved(c, advanceClock); var (d, more) := CheckIfDue(c, advanceClock, h);
            && now.pending == c.pending
            && (more ==> c.pending[0].key <= now.total && d == Fire(now.(pending := c.pending[1..]), c.pending[0], h))
            && (!more ==> d == PutBack(now.(pending := c.pending[1..]), c.pending[0]))
  {
    hide Fire, PutBack;
  }

  lemma CheckKeepsInv(c: Clock, advanceClock: bool, h: Handlers)
    requires ClockInv(c)
    ensures ClockInv(CheckIfDue(c, advanceClock, h).0)
  {
    if c.pending != [] {
      var now := Moved(c, advanceClock);
      AdvanceKeepsInv(c);
      CheckCases(c, advanceClock, h);
      hide ClockInv, Fire, PutBack, CheckIfDue, Advance;
      if CheckIfDue(c, advanceClock, h).1 {
        FireKeepsInv(now, h);
      } else {
        PutBackKeepsInv(now);
      }
    }
  }

  predicate NothingDue(c: Clock) {
    forall i :: 0 <= i < |c.pending| ==> c.pending[i].key > c.total
  }

  lemma {:induction false} InsertAmongLater(es: seq<Entry<Pending>>, e: Entry<Pending>, now: int)
    requires e.key > now && forall i :: 0 <= i < |es| ==> es[i].key > now
    ensures var r := InsertSorted(es, e); forall i :: 0 <= i < |r| ==> r[i].key > now
  {
    if es != [] && es[0].key <= e.key {
      InsertAmongLater(es[1..], e, now);
      assert InsertSorted(es, e) == [es[0]] + InsertSorted(es[1..], e);
    } else {
      assert InsertSorted(es, e) == [e] + es;
    }
  }

  lemma PutBackInFuture(c: Clock)
    requires ClockInv(c) && c.pending != [] && c.pending[0].key > c.total
    ensures NothingDue(PutBack(c.(pending := c.pending[1..]), c.pending[0]))
  {
    assert forall i :: 0 <= i < |c.pending| ==> c.pending[0].key <= c.pending[i].key;
    InsertAmongLater(c.pending[1..], c.pending[0], c.total);
    assert PutBack(c.(pending := c.pending[1..]), c.pending[0]).pending == InsertSorted(c.pending[1..], c.pending[0]);
  }

  lemma PutBackAlone(c: Clock, e: Entry<Pending>)
    requires c.pending == [] && e.key <= c.total
    ensures !NothingDue(PutBack(c, e))
  {
    assert PutBack(c, e).pending[0] == e;
  }

  /** CheckIfDue fires nothing although something is due exactly when the machine is idle, a lone timer
      interrupt is pending, and it is due or the clock is moved on to it. */
  lemma StopsWithDueIff(c: Clock, advanceClock: bool, h: Handlers)
    requires ClockInv(c)
    ensures var (d, more) := CheckIfDue(c, advanceClock, h);
            !more && !NothingDue(d) <==>
              && c.status == IdleMode && |c.pending| == 1 && c.pending[0].item.kind == TimerInt
              && (advanceClock || c.pending[0].key <= c.total)
  {
    if c.pending != [] {
      hide Fire, PutBack, ClockInv, NothingDue;
      var now := Moved(c, advanceClock).(pending := c.pending[1..]);
      if !advanceClock && c.pending[0].key > c.total {
        PutBackInFuture(c);
      } else if now.status == IdleMode && c.pending[0].item.kind == TimerInt && now.pending == [] {
        PutBackAlone(now, c.pending[0]);
      }
    }
  }

  predicate SchedulesNothing(h: Handlers, call: nat) {
    h(call).scheds == []
  }

  /** Everything pending is due, the last of it is a timer interrupt, the machine is idle, and no handler
      called before that one schedules anything. */
  predicate EndsOnTimer(c: Clock, h: Handlers) {
    && c.status == IdleMode && c.pending != []
    && c.pending[|c.pending| - 1].item.kind == TimerInt && c.pending[|c.pending| - 1].key <= c.total
    && forall call :: |c.fired| <= call < |c.fired| + |c.pending| - 1 ==> SchedulesNothing(h, call)
  }

  lemma {:induction false} AllDue(es: seq<Entry<Pending>>, now: int)
    requires SortedByKey(es)
    ensures DueCount(es, now) <= |es|
    ensures es != [] && es[|es| - 1].key <= now ==> DueCount(es, now) == |es|
  {
    if es != [] {
      AllDue(es[1..], now);
    }
  }

  lemma {:induction false} SchedulingAddsEntries(c: Clock, ss: seq<Sched>)
    ensures var r := ScheduleAll(c, ss); |r.pending| == |c.pending| + |ss| && r.fired == c.fired
    decreases |ss|
  {
    if ss != [] {
      SchedulingAddsEntries(Schedule(c, ss[0]), ss[1..]);
    }
  }

  /** What firing the earliest entry leaves pending. */
  lemma FiredPending(c: Clock, h: Handlers)
    requires c.pending != []
    ensures var ss := h(|c.fired|).scheds; var d := Fire(c.(pending := c.pending[1..]), c.pending[0], h);
            && |d.fired| == |c.fired| + 1 && d.total == c.total && d.status == c.status
            && |d.pending| == |c.pending| - 1 + |ss| && (ss == [] ==> d.pending == c.pending[1..])
            && DueCount(d.pending, d.total) == DueCount(c.pending[1..], c.total)
  {
    var r := h(|c.fired|);
    var d := c.(pending := c.pending[1..], fired := c.fired + [c.pending[0]], firedAt := c.firedAt + [c.total],
                yieldOnReturn := c.yieldOnReturn || r.wantsYield);
    SchedulingAddsEntries(d, r.scheds);
    SchedulingAddsNothingDue(d, r.scheds);
  }

  /** A handler that schedules something leaves an entry that is not due behind all that are. */
  lemma SchedulingPreventsEnd(c: Clock, d: Clock, h: Handlers)
    requires SortedByKey(d.pending) && c.pending != [] && !SchedulesNothing(h, |c.fired|)
    requires |c.pending| > 1 || c.status != IdleMode || c.pending[0].item.kind != TimerInt
    requires |d.pending| > |c.pending| - 1 && DueCount(d.pending, d.total) == DueCount(c.pending[1..], c.total)
    requires SortedByKey(c.pending)
    ensures !EndsOnTimer(d, h) && !EndsOnTimer(c, h)
  {
    AllDue(c.pending[1..], c.total);
    AllDue(d.pending, d.total);
  }

  lemma FiringKeepsEnd(c: Clock, h: Handlers)
    requires ClockInv(c) && CheckIfDue(c, false, h).1
    ensures EndsOnTimer(CheckIfDue(c, false, h).0, h) <==> EndsOnTimer(c, h)
  {
    hide Fire;
    var d := CheckIfDue(c, false, h).0;
    assert |c.pending| == 1 ==> c.status != IdleMode || c.pending[0].item.kind != TimerInt;
    CheckCases(c, false, h);
    CheckKeepsInv(c, false, h);
    FiredPending(c, h);
    hide CheckIfDue, DueCount;
    if !SchedulesNothing(h, |c.fired|) {
      SchedulingPreventsEnd(c, d, h);
    } else if |c.pending| > 1 {
      assert d.pending[|d.pending| - 1] == c.pending[|c.pending| - 1];
    }
  }

  /** The drain loop, which ends because each turn uses up a due entry, keeps the invariant, and leaves
      something due exactly when the machine is idle and the drain comes down to a lone timer interrupt. */
  lemma {:induction false} DrainKeepsInv(c: Clock, h: Handlers)
    requires ClockInv(c)
    ensures var d := Drain(c, h);
            && ClockInv(d) && d.total == c.total && d.status == c.status
            && (NothingDue(d) <==> !EndsOnTimer(c, h))
    decreases DueCount(c.pending, c.total)
  {
    FiringUsesUpDue(c, h);
    CheckKeepsInv(c, false, h);
    StopsWithDueIff(c, false, h);
    if CheckIfDue(c, false, h).1 {
      FiringKeepsEnd(c, h);
    } else {
      StoppedEnd(c, h);
    }
    hide ClockInv, CheckIfDue, NothingDue, DueCount, EndsOnTimer;
    var (d, more) := CheckIfDue(c, false, h);
    if more {
      DrainKeepsInv(d, h);
    }
  }

  lemma StoppedEnd(c: Clock, h: Handlers)
    requires ClockInv(c) && !CheckIfDue(c, false, h).1
    ensures EndsOnTimer(c, h) <==>
              c.status == IdleMode && |c.pending| == 1 && c.pending[0].item.kind == TimerInt && c.pending[0].key <= c.total
  {
    if c.pending != [] {
      assert c.pending[0].key <= c.pending[|c.pending| - 1].key;
    }
  }

  // ---------- Runs ----------

  datatype ClockOp = Tick | GoIdle | Request(s: Sched) | SetStatus(to: MachineStatus)

  function ClockNext(c: Clock, op: ClockOp, h: Handlers): Clock {
    match op
    case Tick => OneTick(c, h).(yieldOnReturn := false)
    case GoIdle => Idle(c, h).0
    case Request(s) => Schedule(c, s)
    case SetStatus(to) => c.(status := to)
  }

  lemma TickKeepsInv(c: Clock, h: Handlers)
    requires ClockInv(c)
    ensures ClockInv(OneTick(c, h)) && OneTick(c, h).total > c.total && OneTick(c, h).status == c.status
    ensures c.status != IdleMode ==> NothingDue(OneTick(c, h))
  {
    hide ClockInv, NothingDue, Drain;
    TimeMovesOn(c, Ticked(c));
    DrainKeepsInv(Ticked(c), h);
  }

  lemma TimeMovesOn(c: Clock, t: Clock)
    requires ClockInv(c) && t == c.(total := t.total, system := t.system, user := t.user)
    requires t.total >= c.total && t.total - c.total == (t.system - c.system) + (t.user - c.user)
    ensures ClockInv(t)
  {
  }

  lemma FlagsAreIrrelevant(c: Clock, status: MachineStatus, yieldOnReturn: bool)
    requires ClockInv(c)
    ensures ClockInv(c.(status := status, yieldOnReturn := yieldOnReturn))
    ensures NothingDue(c) <==> NothingDue(c.(status := status, yieldOnReturn := yieldOnReturn))
  {
  }

  /** The clock at which Idle looks at what is pending. */
  function IdleClock(c: Clock): Clock
    requires c.pending != []
  {
    Moved(c.(status := IdleMode), true)
  }

  /** Idle drains what is pending at that clock. */
  lemma IdleDrains(c: Clock, h: Handlers)
    requires c.pending != []
    ensures var d := Drain(IdleClock(c), h);
            Idle(c, h).0 == if Idle(c, h).1 then d.(yieldOnReturn := false, status := SystemMode) else d
    ensures Idle(c, h).1 <==> c.pending[0].item.kind != TimerInt || |c.pending| > 1
    ensures IdleClock(c).total == (if c.pending[0].key > c.total then c.pending[0].key else c.total)
  {
    hide Fire, PutBack;
    var m := IdleClock(c);
    assert CheckIfDue(c.(status := IdleMode), true, h) == CheckIfDue(m, false, h);
    DrainUnfolds(m, h);
  }

  /** Idle finds something to do exactly when more than a lone timer interrupt is pending. It leaves
      something due exactly when, at the time of the earliest interrupt, the drain comes down to one. */
  lemma IdleKeepsInv(c: Clock, h: Handlers)
    requires ClockInv(c)
    ensures ClockInv(Idle(c, h).0) && Idle(c, h).0.total >= c.total
    ensures Idle(c, h).1 <==> c.pending != [] && (c.pending[0].item.kind != TimerInt || |c.pending| > 1)
    ensures NothingDue(Idle(c, h).0) <==> c.pending == [] || !EndsOnTimer(IdleClock(c), h)
  {
    FlagsAreIrrelevant(c, IdleMode, c.yieldOnReturn);
    if c.pending != [] {
      AdvanceKeepsInv(c.(status := IdleMode));
      IdleDrains(c, h);
      hide ClockInv, NothingDue, Drain, Idle, EndsOnTimer;
      var d := Drain(IdleClock(c), h);
      DrainKeepsInv(IdleClock(c), h);
      FlagsAreIrrelevant(d, SystemMode, false);
    }
  }

  lemma NextKeepsInv(c: Clock, op: ClockOp, h: Handlers)
    requires ClockInv(c)
    ensures ClockInv(ClockNext(c, op, h)) && ClockNext(c, op, h).total >= c.total
    ensures op == Tick && c.status != IdleMode ==> NothingDue(ClockNext(c, op, h))
    ensures op == GoIdle ==> (NothingDue(ClockNext(c, op, h)) <==> c.pending == [] || !EndsOnTimer(IdleClock(c), h))
  {
    hide ClockInv, NothingDue, OneTick, Idle, EndsOnTimer, IdleClock;
    match op {
      case Tick =>
        TickKeepsInv(c, h);
        FlagsAreIrrelevant(OneTick(c, h), c.status, false);
      case GoIdle => IdleKeepsInv(c, h);
      case Request(s) => ScheduleKeepsInv(c, s);
      case SetStatus(to) => FlagsAreIrrelevant(c, to, c.yieldOnReturn);
    }
  }

  function After(c: Clock, ops: seq<ClockOp>, h: Handlers): Clock
    decreases |ops|
  {
    if ops == [] then c else ClockNext(After(c, ops[..|ops| - 1], h), ops[|ops| - 1], h)
  }

  /** Over every run, whatever the handlers do: interrupts fire in order of their times and never
      early, each interrupt scheduled has fired once or is pending, and the clock is the sum of idle,
      system and user time. */
  lemma {:induction false} RunKeepsInv(ops: seq<ClockOp>, h: Handlers)
    ensures ClockInv(After(NEW_CLOCK, ops, h))
    decreases |ops|
  {
    if ops != [] {
      RunKeepsInv(ops[..|ops| - 1], h);
      NextKeepsInv(After(NEW_CLOCK, ops[..|ops| - 1], h), ops[|ops| - 1], h);
    }
  }

  /** Nothing but a timer interrupt is scheduled, for 100 ticks on, and the machine idles: the clock moves
      to 100, the machine halts, and the interrupt is pending and due. */
  lemma LoneTimerStaysDue(h: Handlers)
    ensures var c := After(NEW_CLOCK, [Request(Sched(Pending(0, TimerInt), 100))], h);
            var (d, goOn) := Idle(c, h);
            && !goOn && d.total == d.idle == 100 && d.fired == []
            && d.pending == [Entry(Pending(0, TimerInt), 100)] && !NothingDue(d)
  {
    var op := Request(Sched(Pending(0, TimerInt), 100));
    var e := Entry(Pending(0, TimerInt), 100);
    assert [op][..0] == [];
    assert After(NEW_CLOCK, [op], h) == ClockNext(After(NEW_CLOCK, [], h), op, h);
    assert InsertSorted([], e) == [e];
    var c := After(NEW_CLOCK, [op], h);
    assert c.pending == [e] && c.pending[1..] == [];
    assert Idle(c, h).0.pending[0] == e;
  }
}
