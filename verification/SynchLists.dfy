/** The synchronised list (threads/synchlist.cc): producers and consumers under one lock, with a
    condition on which consumers wait for items. An item is a pointer; NULL is 0. */
module SynchLists {
  import opened Options
  import opened Sequences
  import opened HandOffLocks
  import opened Synch
  import opened Kernel
  import opened KernelInvariant
  import opened KernelRuns

  const LOCK: nat := 0
  const COND: nat := 0
  const NULL: nat := 0

  /** How far a thread is in Append (asleep in Acquire; about to append; to signal) or in Remove
      (asleep in Acquire; at the test; about to wait; in Wait; past the test), or about to release. */
  datatype Phase =
    | Outside
    | Adding(item: nat) | ToAppend(item: nat) | ToSignal
    | Taking | ToTest | ToWait | Waiting | ToRemove
    | ToRelease(result: nat)

  /** `appended` and `removed` are history: the items in the order of their appends and removals. */
  datatype ListSystem = ListSystem(k: State, phase: seq<Phase>, list: seq<nat>, appended: seq<nat>, removed: seq<nat>)

  datatype ListStep =
    | Elsewhere(step: Step)
    | BeginAppend(item: nat)
    | BeginRemove
    | AcquireResumed
    | AppendItem
    | SignalAppended
    | TestEmpty
    | WaitForItem
    | WaitResumed
    | RemoveItem
    | End

  predicate Shape(d: ListSystem) {
    |d.phase| == |d.k.threads| && LOCK < |d.k.locks| && COND < |d.k.conds|
  }

  predicate Present(d: ListSystem) {
    Running(d.k) && d.k.cpu.value < |d.phase|
  }

  function Mine(d: ListSystem): Phase
    requires Present(d)
  {
    d.phase[d.k.cpu.value]
  }

  /** Only the list uses its lock and condition; a thread inside it makes no other call. */
  predicate ListEnabled(d: ListSystem, s: ListStep) {
    match s
    case Elsewhere(step) =>
      && Enabled(d.k, step) && LockNamed(d.k, step) != LOCK && CondNamed(d.k, step) != COND
      && (step.Broadcast? ==> step.c != COND)
      && (IsCall(step) ==> Present(d) && Mine(d).Outside?)
      && (step == Resume ==> Present(d) && !Mine(d).Adding? && !Mine(d).Taking? && !Mine(d).Waiting?)
    case BeginAppend(item) => Present(d) && Mine(d).Outside? && Enabled(d.k, Acquire(LOCK)) && item != NULL
    case BeginRemove => Present(d) && Mine(d).Outside? && Enabled(d.k, Acquire(LOCK))
    case AcquireResumed => Present(d) && (Mine(d).Adding? || Mine(d).Taking?) && Enabled(d.k, Resume)
    case AppendItem => Present(d) && Mine(d).ToAppend? && InterruptsOn(d.k)
    case SignalAppended => Present(d) && Mine(d).ToSignal? && Enabled(d.k, Signal(COND, Some(LOCK)))
    case TestEmpty => Present(d) && Mine(d).ToTest? && InterruptsOn(d.k)
    case WaitForItem => Present(d) && Mine(d).ToWait? && Enabled(d.k, Wait(COND, Some(LOCK)))
    case WaitResumed => Present(d) && Mine(d).Waiting? && Enabled(d.k, Resume)
    case RemoveItem => Present(d) && Mine(d).ToRemove? && InterruptsOn(d.k)
    case End => Present(d) && Mine(d).ToRelease? && Enabled(d.k, Release(LOCK))
  }

  function KernelStep(s: ListStep): Option<Step> {
    match s
    case Elsewhere(step) => Some(step)
    case BeginAppend(_) => Some(Acquire(LOCK))
    case BeginRemove => Some(Acquire(LOCK))
    case AcquireResumed => Some(Resume)
    case SignalAppended => Some(Signal(COND, Some(LOCK)))
    case WaitForItem => Some(Wait(COND, Some(LOCK)))
    case WaitResumed => Some(Resume)
    case End => Some(Release(LOCK))
    case _ => None
  }

  function KernelNext(d: ListSystem, s: ListStep): State
    requires ListEnabled(d, s)
  {
    match KernelStep(s)
    case Some(step) => Next(d.k, step)
    case None => d.k
  }

  /** What List::Remove returns. */
  function FirstItem(list: seq<nat>): nat {
    if list == [] then NULL else list[0]
  }

  /** The phase of the running thread after a step; `returned` says whether its kernel call returned. */
  function PhaseAfter(p: Phase, s: ListStep, list: seq<nat>, returned: bool): Phase {
    match s
    case BeginAppend(item) => if returned then ToAppend(item) else Adding(item)
    case BeginRemove => if returned then ToTest else Taking
    case AcquireResumed => if p.Adding? then ToAppend(p.item) else ToTest
    case AppendItem => ToSignal
    case SignalAppended => ToRelease(NULL)
    case TestEmpty => if list == [] then ToWait else ToRemove
    case WaitForItem => if returned then ToTest else Waiting
    case WaitResumed => if returned then ToTest else Waiting
    case RemoveItem => ToRelease(FirstItem(list))
    case End => Outside
    case Elsewhere(_) => p
  }

  function ListNext(d: ListSystem, s: ListStep): ListSystem
    requires Shape(d) && ListEnabled(d, s)
  {
    var k := KernelNext(d, s);
    var t := CpuOf(d.k);
    var returned := 0 <= t < |k.threads| && k.threads[t].pc.User?;
    var e := d.(k := k, phase := if Present(d) then d.phase[t := PhaseAfter(Mine(d), s, d.list, returned)] else d.phase);
    match s
    case AppendItem => e.(list := d.list + [Mine(d).item], appended := d.appended + [Mine(d).item])
    case RemoveItem => e.(list := Rest(d.list), removed := d.removed + [FirstItem(d.list)])
    case _ => e
  }

  // ---------- The invariant ----------

  predicate InPhase(pc: Pc, held: set<nat>, p: Phase) {
    match p
    case Outside =>
      && !(pc.InWait? && (pc.l == LOCK || pc.c == COND))
      && pc != InWaitAcquire(LOCK) && pc != InAcquire(LOCK) && LOCK !in held
    case Adding(item) => pc == InAcquire(LOCK) && LOCK !in held
    case Taking => pc == InAcquire(LOCK) && LOCK !in held
    case Waiting => (pc == InWait(COND, LOCK) || pc == InWaitAcquire(LOCK)) && LOCK !in held
    case _ => pc == User && LOCK in held
  }

  predicate ThreadInPhase(th: Thread, p: Phase) {
    InPhase(th.pc, th.held, p)
  }

  predicate Inside(p: Phase) {
    !p.Outside? && !p.Adding? && !p.Taking? && !p.Waiting?
  }

  /** What a phase says about the items. */
  predicate ItemsOk(p: Phase, list: seq<nat>) {
    && (p.Adding? || p.ToAppend? ==> p.item != NULL)
    && (p.ToRemove? ==> list != [])
    && (p.ToWait? ==> list == [])
  }

  ghost predicate ListInv(d: ListSystem) {
    && Inv(d.k) && Shape(d)
    && (forall t :: 0 <= t < |d.phase| ==> ThreadInPhase(d.k.threads[t], d.phase[t]) && ItemsOk(d.phase[t], d.list))
    && d.appended == d.removed + d.list && NULL !in d.appended
  }

  /** The lock keeps all but one thread out of the list. */
  lemma OneInside(d: ListSystem, t: nat, u: nat)
    requires ListInv(d) && t < |d.phase| && u < |d.phase| && Inside(d.phase[t]) && Inside(d.phase[u])
    ensures t == u
  {
    assert ThreadInPhase(d.k.threads[t], d.phase[t]) && ThreadInPhase(d.k.threads[u], d.phase[u]);
    MutualExclusion(d.k, t, u, LOCK);
  }

  // ---------- Every step ----------

  lemma OthersKeepPhase(d: ListSystem, s: ListStep)
    requires Shape(d) && ListEnabled(d, s)
    ensures var e := ListNext(d, s);
            && Shape(e) && |e.phase| == |d.phase|
            && forall u :: 0 <= u < |d.phase| && d.k.cpu != Some(u) ==>
                 e.phase[u] == d.phase[u] && e.k.threads[u].pc == d.k.threads[u].pc && e.k.threads[u].held == d.k.threads[u].held
  {
    if KernelStep(s).Some? {
      StepFrame(d.k, KernelStep(s).value);
    }
    hide Next, Enabled;
  }

  lemma ElsewhereProgram(k: State, step: Step, p: Phase)
    requires Enabled(k, step) && Running(k) && ThreadInPhase(Current(k), p)
    requires LockNamed(k, step) != LOCK && CondNamed(k, step) != COND
    requires (IsCall(step) ==> p.Outside?) && (step == Resume ==> !p.Adding? && !p.Taking? && !p.Waiting?)
    ensures InPhase(ProgramAfter(k, step).0, ProgramAfter(k, step).1, p)
  {
  }

  /** The list's own calls and continuations lead from phase to phase. */
  lemma OwnProgram(k: State, s: ListStep, p: Phase, list: seq<nat>)
    requires KernelStep(s).Some? && !s.Elsewhere? && Enabled(k, KernelStep(s).value) && Running(k) && ThreadInPhase(Current(k), p)
    requires match s
             case BeginAppend(_) => p.Outside?
             case BeginRemove => p.Outside?
             case AcquireResumed => p.Adding? || p.Taking?
             case SignalAppended => p.ToSignal?
             case WaitForItem => p.ToWait?
             case WaitResumed => p.Waiting?
             case End => p.ToRelease?
             case _ => true
    ensures var (pc, held) := ProgramAfter(k, KernelStep(s).value); InPhase(pc, held, PhaseAfter(p, s, list, pc.User?))
  {
  }

  /** The running thread is in the phase that the step says. */
  lemma OwnStepKeepsPhase(d: ListSystem, s: ListStep, t: nat)
    requires ListInv(d) && ListEnabled(d, s) && t < |d.phase| && d.k.cpu == Some(t)
    ensures var e := ListNext(d, s); Shape(e) && ThreadInPhase(e.k.threads[t], e.phase[t])
  {
    var k := d.k;
    assert ThreadInPhase(k.threads[t], d.phase[t]);
    OthersKeepPhase(d, s);
    hide Next, Inv, AcquireLock, Enabled;
    if s.Elsewhere? {
      ElsewhereProgram(k, s.step, d.phase[t]);
      hide InPhase;
      ProgramStep(k, s.step, t);
      hide ProgramAfter;
    } else if KernelStep(s).Some? {
      OwnProgram(k, s, d.phase[t], d.list);
      hide InPhase, PhaseAfter;
      ProgramStep(k, KernelStep(s).value, t);
      hide ProgramAfter;
    }
  }

  lemma StepKeepsPhases(d: ListSystem, s: ListStep)
    requires ListInv(d) && ListEnabled(d, s)
    ensures var e := ListNext(d, s);
            Inv(e.k) && Shape(e) && forall t :: 0 <= t < |e.phase| ==> ThreadInPhase(e.k.threads[t], e.phase[t])
  {
    var e := ListNext(d, s);
    OthersKeepPhase(d, s);
    if KernelStep(s).Some? {
      StepKeepsInv(d.k, KernelStep(s).value);
    }
    hide Next, Inv, Enabled, ListEnabled, InPhase;
    forall t | 0 <= t < |e.phase|
      ensures ThreadInPhase(e.k.threads[t], e.phase[t])
    {
      if d.k.cpu == Some(t) {
        OwnStepKeepsPhase(d, s, t);
      } else {
        assert ThreadInPhase(d.k.threads[t], d.phase[t]);
      }
    }
  }

  /** A consumer past its test still finds what it found: nobody else is inside to change it. */
  lemma StepKeepsItems(d: ListSystem, s: ListStep, u: nat)
    requires ListInv(d) && ListEnabled(d, s) && u < |d.phase|
    ensures var e := ListNext(d, s); u < |e.phase| && ItemsOk(e.phase[u], e.list)
  {
    OthersKeepPhase(d, s);
    assert ItemsOk(d.phase[u], d.list);
    if (s.RemoveItem? || s.AppendItem?) && Inside(d.phase[u]) {
      OneInside(d, d.k.cpu.value, u);
    }
    hide KernelNext, Enabled, Inv, InterruptsOn, InPhase;
  }

  lemma StepKeepsListInv(d: ListSystem, s: ListStep)
    requires ListInv(d) && ListEnabled(d, s)
    ensures ListInv(ListNext(d, s))
  {
    var e := ListNext(d, s);
    StepKeepsPhases(d, s);
    OthersKeepPhase(d, s);
    forall u | 0 <= u < |d.phase|
      ensures ItemsOk(e.phase[u], e.list)
    {
      StepKeepsItems(d, s, u);
    }
    if Present(d) {
      assert ItemsOk(Mine(d), d.list);
    }
    hide KernelNext, Enabled, Inv, InterruptsOn, InPhase;
  }

  // ---------- No consumer is forgotten ----------

  /** The threads that will take an item or pass the word on: about to signal, at the test or past it,
      or woken from Wait. */
  ghost function Awake(d: ListSystem): set<nat>
    requires Shape(d)
  {
    set t: nat | t < |d.phase| && IsAwake(d, t)
  }

  predicate IsAwake(d: ListSystem, t: nat)
    requires Shape(d) && t < |d.phase|
  {
    var p := d.phase[t];
    p.ToSignal? || p.ToTest? || p.ToRemove? || (p.Waiting? && t !in d.k.conds[COND].queue)
  }

  /** While consumers wait, there is a thread awake for every item on the list. */
  ghost predicate NoneForgotten(d: ListSystem)
    requires Shape(d)
  {
    d.k.conds[COND].queue != [] ==> |d.list| <= |Awake(d)|
  }

  /** Every waiter on the list's condition is in its Wait, under its lock. */
  lemma WaitersAreConsumers(d: ListSystem, u: nat)
    requires ListInv(d) && u in d.k.conds[COND].queue
    ensures u < |d.phase| && d.phase[u].Waiting? && d.k.conds[COND].waitingLock == Some(LOCK) && d.k.cpu != Some(u)
  {
    assert PlaceOk(d.k, OnCond(COND)) && PlaceOk(d.k, OnCpu);
    assert u in QueueAt(d.k, OnCond(COND));
    assert ThreadOk(d.k, u) && ThreadInPhase(d.k.threads[u], d.phase[u]);
    assert d.k.cpu == Some(u) ==> u in QueueAt(d.k, OnCpu);
  }

  lemma CondQueueKept(d: ListSystem, s: ListStep)
    requires Shape(d) && ListEnabled(d, s) && !s.SignalAppended? && !s.WaitForItem?
    ensures Shape(ListNext(d, s)) && ListNext(d, s).k.conds[COND] == d.k.conds[COND]
  {
    if KernelStep(s).Some? {
      StepFrame(d.k, KernelStep(s).value);
    }
    hide Next, Enabled;
  }

  lemma SignalTakesOne(d: ListSystem)
    requires ListInv(d) && ListEnabled(d, SignalAppended)
    ensures var e := ListNext(d, SignalAppended); var q := d.k.conds[COND].queue;
            Shape(e) && e.k.conds[COND].queue == (if q == [] then [] else q[1..])
  {
    SignalFrame(d.k, COND, Some(LOCK));
    StepFrame(d.k, Signal(COND, Some(LOCK)));
    if d.k.conds[COND].queue != [] {
      WaitersAreConsumers(d, d.k.conds[COND].queue[0]);
    }
    hide DoSignal, Inv;
  }

  /** The running thread after a step of its own. */
  lemma OwnPhase(d: ListSystem, s: ListStep)
    requires Shape(d) && ListEnabled(d, s) && !s.Elsewhere?
    ensures var e := ListNext(d, s); var t := d.k.cpu.value; var p := Mine(d);
            && Shape(e)
            && exists returned :: e.phase[t] == PhaseAfter(p, s, d.list, returned)
  {
    OthersKeepPhase(d, s);
    hide Next, Enabled;
    var t := d.k.cpu.value;
    var k := KernelNext(d, s);
    var returned := 0 <= t < |k.threads| && k.threads[t].pc.User?;
    assert ListNext(d, s).phase[t] == PhaseAfter(Mine(d), s, d.list, returned);
  }

  lemma Exchange(a: set<nat>, b: set<nat>, t: nat, u: nat)
    requires t in a && u !in a && forall x: nat :: x in b <==> x == u || (x in a && x != t)
    ensures |b| == |a|
  {
    assert b == a - {t} + {u};
  }

  /** A signal wakes a waiter in exchange for the signaller. */
  lemma SignalExchanges(d: ListSystem)
    requires ListInv(d) && ListEnabled(d, SignalAppended) && d.k.conds[COND].queue != []
    ensures Shape(ListNext(d, SignalAppended)) && |Awake(ListNext(d, SignalAppended))| == |Awake(d)|
  {
    var e := ListNext(d, SignalAppended);
    var t, q := d.k.cpu.value, d.k.conds[COND].queue;
    var u := q[0];
    SignalTakesOne(d);
    OthersKeepPhase(d, SignalAppended);
    WaitersAreConsumers(d, u);
    assert PlaceOk(d.k, OnCond(COND));
    PopLeavesTheRest(q);
    hide Inv, ListInv, KernelNext, Enabled;
    assert IsAwake(d, t) && !IsAwake(d, u);
    assert !IsAwake(e, t) && IsAwake(e, u);
    assert forall x :: 0 <= x < |d.phase| && x != t && x != u ==> (IsAwake(e, x) <==> IsAwake(d, x));
    hide IsAwake, ListNext, ListEnabled;
    Exchange(Awake(d), Awake(e), t, u);
  }

  lemma SignalKeepsAwake(d: ListSystem)
    requires ListInv(d) && ListEnabled(d, SignalAppended) && NoneForgotten(d)
    ensures Shape(ListNext(d, SignalAppended)) && NoneForgotten(ListNext(d, SignalAppended))
  {
    SignalTakesOne(d);
    if d.k.conds[COND].queue != [] {
      SignalExchanges(d);
    }
    hide ListInv, KernelNext, Enabled, Awake;
  }

  lemma StepKeepsAwake(d: ListSystem, s: ListStep)
    requires ListInv(d) && ListEnabled(d, s) && NoneForgotten(d)
    ensures Shape(ListNext(d, s)) && NoneForgotten(ListNext(d, s))
  {
    var e := ListNext(d, s);
    OthersKeepPhase(d, s);
    if s.SignalAppended? {
      SignalKeepsAwake(d);
    } else if s.WaitForItem? {
      assert ItemsOk(Mine(d), d.list);
    } else {
      CondQueueKept(d, s);
      if s.Elsewhere? {
        hide KernelNext, Enabled, Inv;
        assert Awake(e) == Awake(d);
      } else {
        OwnStepKeepsAwake(d, s);
      }
    }
  }

  /** The threads awake other than `t`. */
  ghost function AwakeBut(d: ListSystem, t: nat): set<nat>
    requires Shape(d)
  {
    Awake(d) - {t}
  }

  lemma CountWithOne(d: ListSystem, t: nat)
    requires Shape(d) && t < |d.phase|
    ensures |Awake(d)| == |AwakeBut(d, t)| + (if IsAwake(d, t) then 1 else 0)
  {
    hide IsAwake;
    if IsAwake(d, t) {
      assert t in Awake(d);
      assert Awake(d) == AwakeBut(d, t) + {t};
    } else {
      assert t !in Awake(d);
      assert Awake(d) == AwakeBut(d, t);
    }
  }

  lemma AwakeButOne(d: ListSystem, e: ListSystem, t: nat)
    requires Shape(d) && Shape(e) && t < |d.phase| == |e.phase|
    requires forall u :: 0 <= u < |d.phase| && u != t ==> (IsAwake(e, u) <==> IsAwake(d, u))
    ensures |Awake(e)| == |Awake(d)| + (if IsAwake(e, t) then 1 else 0) - (if IsAwake(d, t) then 1 else 0)
  {
    hide IsAwake;
    assert AwakeBut(e, t) == AwakeBut(d, t);
    CountWithOne(d, t);
    CountWithOne(e, t);
  }

  lemma OwnStepKeepsAwake(d: ListSystem, s: ListStep)
    requires ListInv(d) && ListEnabled(d, s) && NoneForgotten(d) && !s.SignalAppended? && !s.WaitForItem? && !s.Elsewhere?
    ensures Shape(ListNext(d, s)) && NoneForgotten(ListNext(d, s))
  {
    var e, t := ListNext(d, s), d.k.cpu.value;
    OthersKeepPhase(d, s);
    CondQueueKept(d, s);
    OwnPhase(d, s);
    if t in d.k.conds[COND].queue {
      WaitersAreConsumers(d, t);
    }
    assert ItemsOk(Mine(d), d.list);
    hide KernelNext, Enabled, Inv, InPhase;
    AwakeButOne(d, e, t);
    hide Awake;
  }

  // ---------- Runs ----------

  ghost predicate ListStart(d: ListSystem) {
    && Initial(d.k) && Shape(d) && d.list == [] && d.appended == [] && d.removed == []
    && forall t :: 0 <= t < |d.phase| ==> d.phase[t] == Outside
  }

  ghost predicate ListRun(ds: seq<ListSystem>, steps: seq<ListStep>) {
    && |ds| == |steps| + 1 && ListStart(ds[0])
    && forall i :: 0 <= i < |steps| ==> Shape(ds[i]) && ListEnabled(ds[i], steps[i]) && ds[i + 1] == ListNext(ds[i], steps[i])
  }

  lemma {:induction false} ListRunKeepsInv(ds: seq<ListSystem>, steps: seq<ListStep>, n: nat)
    requires ListRun(ds, steps) && n < |ds|
    ensures ListInv(ds[n])
  {
    if n == 0 {
      InitialInv(ds[0].k);
    } else {
      ListRunKeepsInv(ds, steps, n - 1);
      StepKeepsListInv(ds[n - 1], steps[n - 1]);
    }
  }

  /** Over every run, no consumer sleeps on while items lie unclaimed: as long as any consumer waits,
      every item on the list has a thread awake that is about to signal, to test or to take. */
  lemma {:induction false} NoConsumerForgotten(ds: seq<ListSystem>, steps: seq<ListStep>, n: nat)
    requires ListRun(ds, steps) && n < |ds|
    ensures Shape(ds[n]) && NoneForgotten(ds[n])
  {
    ListRunKeepsInv(ds, steps, n);
    if n > 0 {
      NoConsumerForgotten(ds, steps, n - 1);
      ListRunKeepsInv(ds, steps, n - 1);
      StepKeepsAwake(ds[n - 1], steps[n - 1]);
    }
  }

  // ---------- The calls, from the steps alone ----------

  datatype Call = AppendCall(item: nat) | RemoveCall

  /** The call that thread `t` has made latest, among the first `n` steps. */
  function CallOf(ds: seq<ListSystem>, steps: seq<ListStep>, t: nat, n: nat): Option<Call>
    requires n <= |steps| <= |ds|
  {
    if n == 0 then None
    else if ds[n - 1].k.cpu == Some(t) && steps[n - 1].BeginAppend? then Some(AppendCall(steps[n - 1].item))
    else if ds[n - 1].k.cpu == Some(t) && steps[n - 1].BeginRemove? then Some(RemoveCall)
    else CallOf(ds, steps, t, n - 1)
  }

  /** The items of the calls of Append, in the order in which they put them on the list. */
  function Offered(ds: seq<ListSystem>, steps: seq<ListStep>, n: nat): seq<nat>
    requires n <= |steps| <= |ds|
  {
    if n == 0 then []
    else
      var before := Offered(ds, steps, n - 1);
      if !steps[n - 1].AppendItem? || ds[n - 1].k.cpu == None then before
      else
        var call := CallOf(ds, steps, ds[n - 1].k.cpu.value, n - 1);
        before + if call.Some? && call.value.AppendCall? then [call.value.item] else []
  }

  /** How many items the calls of Remove have taken off. */
  function Taken(steps: seq<ListStep>, n: nat): nat
    requires n <= |steps|
  {
    if n == 0 then 0 else Taken(steps, n - 1) + if steps[n - 1].RemoveItem? then 1 else 0
  }

  /** Where, among the items, is the one that thread `t`'s latest call has put on or taken off, if it has. */
  function SlotOf(ds: seq<ListSystem>, steps: seq<ListStep>, t: nat, n: nat): Option<nat>
    requires n <= |steps| <= |ds|
  {
    if n == 0 then None
    else if ds[n - 1].k.cpu != Some(t) then SlotOf(ds, steps, t, n - 1)
    else
      match steps[n - 1]
      case BeginAppend(_) => None
      case BeginRemove => None
      case AppendItem => Some(|Offered(ds, steps, n - 1)|)
      case RemoveItem => Some(Taken(steps, n - 1))
      case _ => SlotOf(ds, steps, t, n - 1)
  }

  predicate ItemAt(items: seq<nat>, slot: Option<nat>, item: nat) {
    slot.Some? && slot.value < |items| && items[slot.value] == item
  }

  /** A thread in phase `p` works on `call`, whose item, once it has one, is in `slot` of the items. */
  predicate WorksOn(p: Phase, call: Option<Call>, slot: Option<nat>, items: seq<nat>) {
    match p
    case Outside => true
    case Adding(item) => call == Some(AppendCall(item))
    case ToAppend(item) => call == Some(AppendCall(item))
    case ToSignal => call.Some? && call.value.AppendCall? && ItemAt(items, slot, call.value.item)
    case ToRelease(result) => call.Some? && ItemAt(items, slot, if call.value.AppendCall? then call.value.item else result)
    case _ => call == Some(RemoveCall)
  }

  function CallAfter(d: ListSystem, s: ListStep, t: nat, call: Option<Call>): Option<Call> {
    if d.k.cpu == Some(t) && s.BeginAppend? then Some(AppendCall(s.item))
    else if d.k.cpu == Some(t) && s.BeginRemove? then Some(RemoveCall)
    else call
  }

  function SlotAfter(d: ListSystem, s: ListStep, t: nat, slot: Option<nat>): Option<nat> {
    if d.k.cpu != Some(t) then slot
    else
      match s
      case BeginAppend(_) => None
      case BeginRemove => None
      case AppendItem => Some(|d.appended|)
      case RemoveItem => Some(|d.removed|)
      case _ => slot
  }

  lemma StepKeepsWork(d: ListSystem, s: ListStep, t: nat, call: Option<Call>, slot: Option<nat>)
    requires ListInv(d) && ListEnabled(d, s) && t < |d.phase| && WorksOn(d.phase[t], call, slot, d.appended)
    ensures var e := ListNext(d, s);
            Shape(e) && t < |e.phase| && WorksOn(e.phase[t], CallAfter(d, s, t, call), SlotAfter(d, s, t, slot), e.appended)
  {
    OthersKeepPhase(d, s);
    assert ItemsOk(d.phase[t], d.list);
    hide Enabled, KernelNext, Inv, InPhase, ThreadInPhase, InterruptsOn;
  }

  lemma RunStep(ds: seq<ListSystem>, steps: seq<ListStep>, i: nat)
    requires ListRun(ds, steps) && i < |steps| < |ds|
    ensures ListInv(ds[i]) && Shape(ds[i]) && ListEnabled(ds[i], steps[i]) && ds[i + 1] == ListNext(ds[i], steps[i])
    ensures Shape(ds[i + 1]) && |ds[i + 1].phase| == |ds[i].phase|
  {
    ListRunKeepsInv(ds, steps, i);
    OthersKeepPhase(ds[i], steps[i]);
    hide ListInv, ListEnabled, ListNext;
  }

  lemma RunStart(ds: seq<ListSystem>, steps: seq<ListStep>)
    requires ListRun(ds, steps) && ds != []
    ensures Shape(ds[0]) && ds[0].appended == [] && ds[0].removed == []
    ensures forall t :: 0 <= t < |ds[0].phase| ==> ds[0].phase[t] == Outside
  {
  }

  /** What a step adds to the history. */
  lemma StepOnHistory(d: ListSystem, s: ListStep)
    requires ListInv(d) && ListEnabled(d, s)
    ensures var e := ListNext(d, s);
            && (s.AppendItem? ==>
                  && d.k.cpu.Some? && d.k.cpu.value < |d.phase| && d.phase[d.k.cpu.value].ToAppend?
                  && e.appended == d.appended + [d.phase[d.k.cpu.value].item])
            && (!s.AppendItem? ==> e.appended == d.appended)
            && |e.removed| == |d.removed| + (if s.RemoveItem? then 1 else 0)
  {
    hide Inv, InPhase, Enabled, KernelNext;
  }

  lemma {:induction false} HistoryIsCalls(ds: seq<ListSystem>, steps: seq<ListStep>, n: nat)
    requires ListRun(ds, steps) && n <= |steps| < |ds|
    ensures ds[n].appended == Offered(ds, steps, n) && |ds[n].removed| == Taken(steps, n)
    decreases n
  {
    hide ListRun, ListNext, ListInv, ListEnabled;
    if n == 0 {
      RunStart(ds, steps);
    } else {
      RunStep(ds, steps, n - 1);
      HistoryIsCalls(ds, steps, n - 1);
      StepOnHistory(ds[n - 1], steps[n - 1]);
      if steps[n - 1].AppendItem? {
        CallsAreWorkedOn(ds, steps, ds[n - 1].k.cpu.value, n - 1);
      }
    }
  }

  lemma {:induction false} CallsAreWorkedOn(ds: seq<ListSystem>, steps: seq<ListStep>, t: nat, n: nat)
    requires ListRun(ds, steps) && n <= |steps| < |ds| && t < |ds[n].phase|
    ensures WorksOn(ds[n].phase[t], CallOf(ds, steps, t, n), SlotOf(ds, steps, t, n), ds[n].appended)
    decreases n
  {
    hide ListRun, ListNext, ListInv, ListEnabled, Offered, Taken;
    if n == 0 {
      RunStart(ds, steps);
    } else {
      RunStep(ds, steps, n - 1);
      CallsAreWorkedOn(ds, steps, t, n - 1);
      HistoryIsCalls(ds, steps, n - 1);
      StepKeepsWork(ds[n - 1], steps[n - 1], t, CallOf(ds, steps, t, n - 1), SlotOf(ds, steps, t, n - 1));
      hide WorksOn;
    }
  }

  /** Over every run, for any interleaving of producers, consumers and other threads, and told from the
      steps alone: the list holds the items of the calls of Append less as many of the first as have
      been taken off; the k-th to be taken off is the k-th put on; a call of Append ends only with its
      item put on, one of Remove only with an item that it took off; and no item taken is null. */
  lemma ListIsFifo(ds: seq<ListSystem>, steps: seq<ListStep>, n: nat)
    requires ListRun(ds, steps) && n <= |steps| < |ds|
    ensures var d := ds[n]; var items := Offered(ds, steps, n);
            && Taken(steps, n) <= |items| && d.list == items[Taken(steps, n)..] && NULL !in items
            && (n < |steps| && steps[n] == RemoveItem ==> d.list != [])
            && (n < |steps| && steps[n] == End ==>
                  && d.k.cpu.Some? && d.k.cpu.value < |d.phase| && d.phase[d.k.cpu.value].ToRelease?
                  && var t := d.k.cpu.value; var call := CallOf(ds, steps, t, n);
                     && call.Some?
                     && ItemAt(items, SlotOf(ds, steps, t, n),
                               if call.value.AppendCall? then call.value.item else d.phase[t].result))
  {
    ListRunKeepsInv(ds, steps, n);
    HistoryIsCalls(ds, steps, n);
    var d := ds[n];
    assert d.list == d.appended[|d.removed|..];
    if n < |steps| && steps[n] == RemoveItem {
      assert ItemsOk(Mine(d), d.list);
    } else if n < |steps| && steps[n] == End {
      assert ListEnabled(d, End);
      CallsAreWorkedOn(ds, steps, d.k.cpu.value, n);
    }
  }
}
