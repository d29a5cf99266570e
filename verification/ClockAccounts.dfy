/** When each requested interrupt is due, and what the clock charges for each operation
    (machine/interrupt.cc), told from the requests and the handlers alone. */
module ClockAccounts {
  import opened Options
  import opened Lists
  import opened Interrupts

  // ---------- What has been asked for ----------

  /** The entries that requests made at time `at` call for. */
  function Asked(ss: seq<Sched>, at: int): multiset<Entry<Pending>> {
    if ss == [] then multiset{} else multiset{Entry(ss[0].what, at + ss[0].fromNow)} + Asked(ss[1..], at)
  }

  /** What the handlers called at these times have asked for. */
  function AskedByHandlers(firedAt: seq<int>, h: Handlers): multiset<Entry<Pending>>
    decreases |firedAt|
  {
    if firedAt == [] then multiset{}
    else
      var n := |firedAt| - 1;
      AskedByHandlers(firedAt[..n], h) + Asked(h(n).scheds, firedAt[n])
  }

  /** What the operations of a run have asked for. */
  function AskedByOps(ops: seq<ClockOp>, h: Handlers): multiset<Entry<Pending>>
    decreases |ops|
  {
    if ops == [] then multiset{}
    else
      var n := |ops| - 1;
      AskedByOps(ops[..n], h) + if ops[n].Request? then Asked([ops[n].s], After(NEW_CLOCK, ops[..n], h).total) else multiset{}
  }

  /** All that is pending or has fired is what `asked`, and the handlers called so far, have asked for. */
  ghost predicate Balanced(c: Clock, h: Handlers, asked: multiset<Entry<Pending>>) {
    && |c.firedAt| == |c.fired|
    && c.scheduled == asked + AskedByHandlers(c.firedAt, h)
  }

  lemma {:induction false} SchedulingBalances(c: Clock, ss: seq<Sched>)
    ensures var r := ScheduleAll(c, ss);
            r.scheduled == c.scheduled + Asked(ss, c.total) && r.fired == c.fired && r.firedAt == c.firedAt
    decreases |ss|
  {
    if ss != [] {
      SchedulingBalances(Schedule(c, ss[0]), ss[1..]);
    }
  }

  lemma FiringBalances(c: Clock, e: Entry<Pending>, h: Handlers, asked: multiset<Entry<Pending>>)
    requires Balanced(c, h, asked)
    ensures Balanced(Fire(c, e, h), h, asked)
  {
    var r := h(|c.fired|);
    var d := c.(fired := c.fired + [e], firedAt := c.firedAt + [c.total], yieldOnReturn := c.yieldOnReturn || r.wantsYield);
    assert d.firedAt[..|c.firedAt|] == c.firedAt;
    SchedulingBalances(d, r.scheds);
  }

  lemma CheckBalances(c: Clock, advanceClock: bool, h: Handlers, asked: multiset<Entry<Pending>>)
    requires Balanced(c, h, asked)
    ensures Balanced(CheckIfDue(c, advanceClock, h).0, h, asked)
  {
    if c.pending != [] {
      CheckCases(c, advanceClock, h);
      FiringBalances(Moved(c, advanceClock).(pending := c.pending[1..]), c.pending[0], h, asked);
      hide Fire;
    }
  }

  lemma {:induction false} DrainBalances(c: Clock, h: Handlers, asked: multiset<Entry<Pending>>)
    requires Balanced(c, h, asked)
    ensures Balanced(Drain(c, h), h, asked)
    decreases DueCount(c.pending, c.total)
  {
    DrainUnfolds(c, h);
    CheckBalances(c, false, h, asked);
    hide CheckIfDue, Balanced, DueCount;
    var (d, more) := CheckIfDue(c, false, h);
    if more {
      DrainBalances(d, h, asked);
    }
  }

  lemma TickBalances(c: Clock, h: Handlers, asked: multiset<Entry<Pending>>)
    requires Balanced(c, h, asked)
    ensures Balanced(OneTick(c, h), h, asked)
  {
    hide AskedByHandlers, Drain;
    DrainBalances(Ticked(c), h, asked);
  }

  lemma IdleBalances(c: Clock, h: Handlers, asked: multiset<Entry<Pending>>)
    requires Balanced(c, h, asked)
    ensures Balanced(Idle(c, h).0, h, asked)
  {
    hide AskedByHandlers, Drain, CheckIfDue;
    var i := c.(status := IdleMode);
    CheckBalances(i, true, h, asked);
    DrainBalances(CheckIfDue(i, true, h).0, h, asked);
  }

  lemma AskedOnce(s: Sched, at: int)
    ensures Asked([s], at) == multiset{Entry(s.what, at + s.fromNow)}
  {
    assert [s][1..] == [];
  }

  lemma NextBalances(c: Clock, op: ClockOp, h: Handlers, asked: multiset<Entry<Pending>>)
    requires Balanced(c, h, asked)
    ensures Balanced(ClockNext(c, op, h), h, asked + if op.Request? then Asked([op.s], c.total) else multiset{})
  {
    hide AskedByHandlers, OneTick, Idle, Asked, InsertSorted;
    match op {
      case Tick => TickBalances(c, h, asked);
      case GoIdle => IdleBalances(c, h, asked);
      case Request(s) => AskedOnce(s, c.total);
      case SetStatus(_) =>
    }
  }

  lemma {:induction false} RunBalanced(ops: seq<ClockOp>, h: Handlers)
    ensures Balanced(After(NEW_CLOCK, ops, h), h, AskedByOps(ops, h))
    decreases |ops|
  {
    if ops != [] {
      var n := |ops| - 1;
      RunBalanced(ops[..n], h);
      NextBalances(After(NEW_CLOCK, ops[..n], h), ops[n], h, AskedByOps(ops[..n], h));
      hide Balanced, ClockNext, Asked;
    }
  }

  /** Over every run, whatever the handlers do: what is pending and what has fired are, together, exactly
      the interrupts that the operations and the handlers have asked for, each under the time of its
      request and the delay asked for. */
  lemma RunBalances(ops: seq<ClockOp>, h: Handlers)
    ensures var c := After(NEW_CLOCK, ops, h);
            multiset(c.fired) + multiset(c.pending) == AskedByOps(ops, h) + AskedByHandlers(c.firedAt, h)
  {
    RunBalanced(ops, h);
    RunKeepsInv(ops, h);
    hide After, AskedByOps, AskedByHandlers, InOrder, OnTime;
  }

  // ---------- One request ----------

  /** An interrupt for `what` at time `due` is pending, or has fired, then or later. */
  ghost predicate Honoured(c: Clock, what: Pending, due: int) {
    || (exists i :: 0 <= i < |c.pending| && c.pending[i] == Entry(what, due))
    || (exists i :: 0 <= i < |c.fired| && i < |c.firedAt| && c.fired[i] == Entry(what, due) && c.firedAt[i] >= due)
  }

  lemma AskedIsHonoured(c: Clock, what: Pending, due: int)
    requires ClockInv(c) && Entry(what, due) in c.scheduled
    ensures Honoured(c, what, due)
  {
    var e := Entry(what, due);
    if e in c.pending {
      var i :| 0 <= i < |c.pending| && c.pending[i] == e;
    } else {
      assert e in multiset(c.fired);
      var i :| 0 <= i < |c.fired| && c.fired[i] == e;
    }
  }

  lemma {:induction false} EachIsAsked(ss: seq<Sched>, at: int, i: nat)
    requires i < |ss|
    ensures Entry(ss[i].what, at + ss[i].fromNow) in Asked(ss, at)
  {
    if i > 0 {
      EachIsAsked(ss[1..], at, i - 1);
    }
  }

  lemma {:induction false} HandlersAreAsked(firedAt: seq<int>, h: Handlers, k: nat, i: nat)
    requires k < |firedAt| && i < |h(k).scheds|
    ensures Entry(h(k).scheds[i].what, firedAt[k] + h(k).scheds[i].fromNow) in AskedByHandlers(firedAt, h)
    decreases |firedAt|
  {
    hide Asked;
    var n := |firedAt| - 1;
    if k == n {
      EachIsAsked(h(k).scheds, firedAt[k], i);
    } else {
      HandlersAreAsked(firedAt[..n], h, k, i);
    }
  }

  lemma {:induction false} OpsAreAsked(ops: seq<ClockOp>, h: Handlers, k: nat)
    requires k < |ops| && ops[k].Request?
    ensures Entry(ops[k].s.what, After(NEW_CLOCK, ops[..k], h).total + ops[k].s.fromNow) in AskedByOps(ops, h)
    decreases |ops|
  {
    hide After, Asked;
    var n := |ops| - 1;
    if k == n {
      EachIsAsked([ops[k].s], After(NEW_CLOCK, ops[..k], h).total, 0);
    } else {
      assert ops[..n][..k] == ops[..k];
      OpsAreAsked(ops[..n], h, k);
    }
  }

  /** Over every run: an interrupt that an operation has asked for is pending at the time of its request
      and its delay, or has fired not before; so is one that a handler has asked for. */
  lemma RequestsAreHonoured(ops: seq<ClockOp>, h: Handlers)
    ensures var c := After(NEW_CLOCK, ops, h);
            && (forall k :: 0 <= k < |ops| && ops[k].Request? ==>
                  Honoured(c, ops[k].s.what, After(NEW_CLOCK, ops[..k], h).total + ops[k].s.fromNow))
            && (forall k, i :: 0 <= k < |c.firedAt| && 0 <= i < |h(k).scheds| ==>
                  Honoured(c, h(k).scheds[i].what, c.firedAt[k] + h(k).scheds[i].fromNow))
  {
    var c := After(NEW_CLOCK, ops, h);
    RunKeepsInv(ops, h);
    RunBalanced(ops, h);
    hide After, AskedByOps, AskedByHandlers, ClockInv, Honoured;
    forall k | 0 <= k < |ops| && ops[k].Request?
      ensures Honoured(c, ops[k].s.what, After(NEW_CLOCK, ops[..k], h).total + ops[k].s.fromNow)
    {
      OpsAreAsked(ops, h, k);
      AskedIsHonoured(c, ops[k].s.what, After(NEW_CLOCK, ops[..k], h).total + ops[k].s.fromNow);
    }
    forall k, i | 0 <= k < |c.firedAt| && 0 <= i < |h(k).scheds|
      ensures Honoured(c, h(k).scheds[i].what, c.firedAt[k] + h(k).scheds[i].fromNow)
    {
      HandlersAreAsked(c.firedAt, h, k, i);
      AskedIsHonoured(c, h(k).scheds[i].what, c.firedAt[k] + h(k).scheds[i].fromNow);
    }
  }

  // ---------- What is charged ----------

  /** Between two clocks so much idle, system and user time has gone by. */
  predicate Charged(c: Clock, d: Clock, idle: int, system: int, user: int) {
    && d.idle == c.idle + idle && d.system == c.system + system && d.user == c.user + user
    && d.total == c.total + idle + system + user
  }

  /** The handlers called from `c` to `d`: one of them asks for a context switch. */
  ghost predicate SomeWantsYield(c: Clock, d: Clock, h: Handlers) {
    exists n: nat :: |c.fired| <= n < |d.fired| && h(n).wantsYield
  }

  lemma {:induction false} SchedulingCharges(c: Clock, ss: seq<Sched>)
    ensures var r := ScheduleAll(c, ss);
            Charged(c, r, 0, 0, 0) && r.fired == c.fired && r.yieldOnReturn == c.yieldOnReturn && r.status == c.status
    decreases |ss|
  {
    if ss != [] {
      SchedulingCharges(Schedule(c, ss[0]), ss[1..]);
    }
  }

  lemma CheckCharges(c: Clock, advanceClock: bool, h: Handlers)
    ensures var (d, more) := CheckIfDue(c, advanceClock, h);
            && Charged(c, d, if advanceClock && c.pending != [] && c.pending[0].key > c.total then c.pending[0].key - c.total else 0, 0, 0)
            && d.status == c.status && d.fired == c.fired + (if more then [c.pending[0]] else [])
            && (d.yieldOnReturn <==> c.yieldOnReturn || (more && h(|c.fired|).wantsYield))
  {
    if c.pending != [] {
      CheckCases(c, advanceClock, h);
      var now := Moved(c, advanceClock).(pending := c.pending[1..]);
      var r := h(|c.fired|);
      SchedulingCharges(now.(fired := now.fired + [c.pending[0]], firedAt := now.firedAt + [now.total],
                             yieldOnReturn := now.yieldOnReturn || r.wantsYield), r.scheds);
    }
  }

  lemma {:induction false} DrainCharges(c: Clock, h: Handlers)
    ensures var d := Drain(c, h);
            && Charged(c, d, 0, 0, 0) && d.status == c.status && |d.fired| >= |c.fired|
            && (d.yieldOnReturn <==> c.yieldOnReturn || SomeWantsYield(c, d, h))
    decreases DueCount(c.pending, c.total)
  {
    DrainUnfolds(c, h);
    CheckCharges(c, false, h);
    hide CheckIfDue, DueCount;
    var (d, more) := CheckIfDue(c, false, h);
    if more {
      DrainCharges(d, h);
      assert Drain(c, h) == Drain(d, h);
      assert SomeWantsYield(c, Drain(d, h), h) <==> h(|c.fired|).wantsYield || SomeWantsYield(d, Drain(d, h), h);
    }
  }

  /** A tick moves the clock on by 10 in system mode, charged to the system, and otherwise by 1, charged
      to the user; the context switch is wanted after it exactly when it was before or a handler called
      in it asks for one. */
  lemma TickCharges(c: Clock, h: Handlers)
    ensures var d := OneTick(c, h);
            && (if c.status == SystemMode then Charged(c, d, 0, 10, 0) else Charged(c, d, 0, 0, 1))
            && d.status == c.status && (d.yieldOnReturn <==> c.yieldOnReturn || SomeWantsYield(c, d, h))
  {
    DrainCharges(Ticked(c), h);
    hide Drain;
  }

  /** Idling moves the clock to the time of the earliest interrupt, if that is later, and charges that
      as idle time. */
  lemma IdleCharges(c: Clock, h: Handlers)
    ensures var (d, goOn) := Idle(c, h);
            && Charged(c, d, if c.pending != [] && c.pending[0].key > c.total then c.pending[0].key - c.total else 0, 0, 0)
            && d.status == (if goOn then SystemMode else IdleMode) && (goOn ==> !d.yieldOnReturn)
  {
    var i := c.(status := IdleMode);
    CheckCharges(i, true, h);
    hide CheckIfDue;
    DrainCharges(CheckIfDue(i, true, h).0, h);
    hide Drain;
  }
}
