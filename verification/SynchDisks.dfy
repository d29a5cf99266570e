/** The synchronous disk (filesys/synchdisk.cc over machine/disk.cc): a lock, a semaphore and an
    interrupt turn asynchronous requests into calls that return when the request is done, with the
    data that the disk held. */
module SynchDisks {
  import opened Options
  import opened Bytes
  import opened FileLayout
  import opened HandOffLocks
  import opened Synch
  import opened Kernel
  import opened KernelInvariant
  import opened KernelRuns

  const LOCK: nat := 0
  const SEM: nat := 0

  /** How far a thread is in ReadSector or WriteSector: asleep in Acquire; holding the lock; its
      request made; asleep in P; back from P. */
  datatype Phase = Outside | Entering | Inside | Issued | Awaiting | Done

  /** A call of ReadSector or WriteSector. */
  datatype Job = ReadJob(sector: nat) | WriteJob(sector: nat, data: seq<byte>)

  /** `job` is each thread's latest call and `buffer` what its latest read got. `log`, `finished` and
      `ticket` are history: the requests in the order they were made, how many have completed, and
      the number of each thread's latest. */
  datatype DiskSystem = DiskSystem(
    k: State, phase: seq<Phase>, active: bool, sectors: Disk, job: seq<Job>, buffer: seq<seq<byte>>,
    log: seq<Job>, finished: nat, ticket: seq<nat>)

  datatype DiskStep =
    | Elsewhere(step: Step)
    | Enter(job: Job)
    | EnterResumed
    | Request
    | Await
    | AwaitResumed
    | Leave
    | Interrupt

  predicate JobOk(j: Job) {
    j.sector < NUM_SECTORS && (j.WriteJob? ==> |j.data| == SECTOR_SIZE)
  }

  ghost predicate DataOk(sectors: Disk, job: seq<Job>) {
    IsDisk(sectors) && forall t :: 0 <= t < |job| ==> JobOk(job[t])
  }

  ghost predicate Shape(d: DiskSystem) {
    && |d.phase| == |d.k.threads| == |d.ticket| == |d.job| == |d.buffer| && LOCK < |d.k.locks| && SEM < |d.k.sems|
    && DataOk(d.sectors, d.job)
  }

  predicate PhaseIs(d: DiskSystem, p: Phase) {
    Running(d.k) && d.k.cpu.value < |d.phase| && d.phase[d.k.cpu.value] == p
  }

  /** Only the disk layer uses its lock and semaphore; a thread inside it makes no other call. */
  predicate DiskEnabled(d: DiskSystem, s: DiskStep) {
    match s
    case Elsewhere(step) =>
      && Enabled(d.k, step) && LockNamed(d.k, step) != LOCK && SemNamed(d.k, step) != SEM
      && (IsCall(step) ==> PhaseIs(d, Outside))
      && (step == Resume ==> !PhaseIs(d, Entering))
    case Enter(job) => PhaseIs(d, Outside) && Enabled(d.k, Acquire(LOCK)) && JobOk(job)
    case EnterResumed => PhaseIs(d, Entering) && Enabled(d.k, Resume)
    case Request => PhaseIs(d, Inside) && InterruptsOn(d.k)
    case Await => PhaseIs(d, Issued) && Enabled(d.k, P(SEM))
    case AwaitResumed => PhaseIs(d, Awaiting) && Enabled(d.k, Resume)
    case Leave => PhaseIs(d, Done) && Enabled(d.k, Release(LOCK))
    case Interrupt => d.active && Enabled(d.k, HandlerV(SEM))
  }

  function KernelStep(s: DiskStep): Option<Step> {
    match s
    case Elsewhere(step) => Some(step)
    case Enter(_) => Some(Acquire(LOCK))
    case EnterResumed => Some(Resume)
    case Request => None
    case Await => Some(P(SEM))
    case AwaitResumed => Some(Resume)
    case Leave => Some(Release(LOCK))
    case Interrupt => Some(HandlerV(SEM))
  }

  /** The kernel's part of a step. */
  function KernelNext(d: DiskSystem, s: DiskStep): State
    requires DiskEnabled(d, s)
  {
    match KernelStep(s)
    case Some(step) => Next(d.k, step)
    case None => d.k
  }

  /** ReadRequest and WriteRequest move the data at once. */
  function Performed(sectors: Disk, j: Job): Disk
    requires j.sector < |sectors|
  {
    if j.WriteJob? then sectors[j.sector := j.data] else sectors
  }

  /** The phase of the running thread after a step; `returned` says whether its kernel call returned. */
  function PhaseAfter(s: DiskStep, p: Phase, returned: bool): Phase {
    match s
    case Enter(_) => if returned then Inside else Entering
    case EnterResumed => Inside
    case Request => Issued
    case Await => if returned then Done else Awaiting
    case AwaitResumed => if returned then Done else Awaiting
    case Leave => Outside
    case _ => p
  }

  ghost function DiskNext(d: DiskSystem, s: DiskStep): DiskSystem
    requires Shape(d) && DiskEnabled(d, s)
  {
    var k := KernelNext(d, s);
    var t := CpuOf(d.k);
    var returned := 0 <= t < |k.threads| && k.threads[t].pc.User?;
    var e := d.(k := k, phase := if 0 <= t < |d.phase| then d.phase[t := PhaseAfter(s, d.phase[t], returned)] else d.phase);
    match s
    case Enter(job) => e.(job := d.job[t := job])
    case Request =>
      var j := d.job[t];
      e.(active := true, log := d.log + [j], ticket := d.ticket[t := |d.log| + 1],
         sectors := Performed(d.sectors, j), buffer := if j.ReadJob? then d.buffer[t := d.sectors[j.sector]] else d.buffer)
    case Interrupt => e.(active := false, finished := d.finished + 1)
    case _ => e
  }

  // ---------- The invariant ----------

  predicate InPhase(pc: Pc, held: set<nat>, p: Phase) {
    && !(pc.InWait? && pc.l == LOCK) && pc != InWaitAcquire(LOCK)
    && match p
       case Outside => pc != InAcquire(LOCK) && pc != InP(SEM) && LOCK !in held
       case Entering => pc == InAcquire(LOCK) && LOCK !in held
       case Awaiting => pc == InP(SEM) && LOCK in held
       case _ => pc == User && LOCK in held
  }

  predicate ThreadInPhase(th: Thread, p: Phase) {
    InPhase(th.pc, th.held, p)
  }

  predicate Pending(p: Phase) {
    p == Issued || p == Awaiting
  }

  function Flag(active: bool): int {
    if active then 1 else 0
  }

  predicate Served(p: Phase) {
    Pending(p) || p == Done
  }

  /** The latest request was this one, and the disk holds what it read or wrote. */
  ghost predicate Answered(sectors: Disk, log: seq<Job>, j: Job, buffer: seq<byte>) {
    && log != [] && log[|log| - 1] == j && j.sector < |sectors|
    && sectors[j.sector] == if j.ReadJob? then buffer else j.data
  }

  ghost predicate DiskInv(d: DiskSystem) {
    && Inv(d.k) && Shape(d)
    && (forall t :: 0 <= t < |d.phase| ==> ThreadInPhase(d.k.threads[t], d.phase[t]))
    && |d.log| == d.finished + Flag(d.active)
    && (forall t :: 0 <= t < |d.phase| && Pending(d.phase[t]) ==> d.k.sems[SEM].value + Flag(d.active) == 1)
    && ((forall t :: 0 <= t < |d.phase| ==> !Pending(d.phase[t])) ==> d.k.sems[SEM].value + Flag(d.active) == 0)
    && (forall t :: 0 <= t < |d.phase| && Served(d.phase[t]) ==>
          d.ticket[t] == |d.log| && Answered(d.sectors, d.log, d.job[t], d.buffer[t]))
  }

  /** The lock keeps all but one thread out. */
  lemma OneInside(d: DiskSystem, t: nat, u: nat)
    requires DiskInv(d) && t < |d.phase| && u < |d.phase|
    requires d.phase[t] in {Inside, Issued, Awaiting, Done} && d.phase[u] in {Inside, Issued, Awaiting, Done}
    ensures t == u
  {
    assert ThreadInPhase(d.k.threads[t], d.phase[t]) && ThreadInPhase(d.k.threads[u], d.phase[u]);
    MutualExclusion(d.k, t, u, LOCK);
  }

  /** The disk's assertion that it is idle holds at every request. */
  lemma NeverBusyAtRequest(d: DiskSystem)
    requires DiskInv(d) && DiskEnabled(d, Request)
    ensures !d.active && d.k.sems[SEM].value == 0
  {
    var t := d.k.cpu.value;
    forall u | 0 <= u < |d.phase|
      ensures !Pending(d.phase[u])
    {
      if Pending(d.phase[u]) {
        OneInside(d, t, u);
      }
    }
    assert SemOk(d.k, SEM);
  }

  /** The semaphore and the active flag add up to one exactly from a request to the return from P. */
  lemma CountIsOneWhilePending(d: DiskSystem)
    requires DiskInv(d)
    ensures d.k.sems[SEM].value + Flag(d.active) ==
              if exists t :: 0 <= t < |d.phase| && Pending(d.phase[t]) then 1 else 0
    ensures d.k.sems[SEM].value >= 0
  {
    assert SemOk(d.k, SEM);
  }

  /** No call returns before its own request has finished; it was the latest one, and the disk still
      holds what it read or wrote. */
  lemma ReturnsAfterCompletion(d: DiskSystem)
    requires DiskInv(d) && DiskEnabled(d, Leave)
    ensures var t := d.k.cpu.value;
            !d.active && d.ticket[t] == d.finished && Answered(d.sectors, d.log, d.job[t], d.buffer[t])
  {
    var t := d.k.cpu.value;
    forall u | 0 <= u < |d.phase|
      ensures !Pending(d.phase[u])
    {
      if Pending(d.phase[u]) {
        OneInside(d, t, u);
      }
    }
    assert SemOk(d.k, SEM);
  }

  // ---------- Every step ----------

  lemma OthersKeepPhase(d: DiskSystem, s: DiskStep)
    requires Shape(d) && DiskEnabled(d, s)
    ensures var e := DiskNext(d, s);
            && Shape(e) && |e.phase| == |d.phase|
            && forall u :: 0 <= u < |d.phase| && d.k.cpu != Some(u) ==> e.phase[u] == d.phase[u] && e.ticket[u] == d.ticket[u]
  {
    if KernelStep(s).Some? {
      StepFrame(d.k, KernelStep(s).value);
    }
    hide Next;
  }

  lemma ElsewhereProgram(k: State, step: Step, p: Phase)
    requires Enabled(k, step) && Running(k) && ThreadInPhase(Current(k), p)
    requires LockNamed(k, step) != LOCK && SemNamed(k, step) != SEM
    requires (IsCall(step) ==> p == Outside) && (step == Resume ==> p != Entering)
    ensures InPhase(ProgramAfter(k, step).0, ProgramAfter(k, step).1, p)
  {
  }

  /** The disk layer's own calls and continuations lead from phase to phase. */
  lemma OwnProgram(k: State, s: DiskStep, p: Phase)
    requires KernelStep(s).Some? && !s.Elsewhere? && Enabled(k, KernelStep(s).value) && Running(k) && ThreadInPhase(Current(k), p)
    requires match s
             case Enter(_) => p == Outside
             case EnterResumed => p == Entering
             case Await => p == Issued
             case AwaitResumed => p == Awaiting
             case Leave => p == Done
             case _ => true
    ensures var (pc, held) := ProgramAfter(k, KernelStep(s).value); InPhase(pc, held, PhaseAfter(s, p, pc.User?))
  {
  }

  /** The running thread is in the phase that the step says. */
  lemma OwnStepKeepsPhase(d: DiskSystem, s: DiskStep, t: nat)
    requires DiskInv(d) && DiskEnabled(d, s) && t < |d.phase| && d.k.cpu == Some(t)
    ensures var e := DiskNext(d, s); Shape(e) && ThreadInPhase(e.k.threads[t], e.phase[t])
  {
    hide Next, Inv, AcquireLock, DataOk, Answered, Performed;
    var k := d.k;
    assert ThreadInPhase(k.threads[t], d.phase[t]);
    OthersKeepPhase(d, s);
    if KernelStep(s).Some? {
      ProgramStep(k, KernelStep(s).value, t);
      if s.Elsewhere? {
        ElsewhereProgram(k, s.step, d.phase[t]);
      } else {
        OwnProgram(k, s, d.phase[t]);
      }
      hide ProgramAfter, InPhase;
    }
    hide Enabled;
  }

  lemma DiskStepKeepsPhases(d: DiskSystem, s: DiskStep)
    requires DiskInv(d) && DiskEnabled(d, s)
    ensures var e := DiskNext(d, s);
            Inv(e.k) && Shape(e) && forall t :: 0 <= t < |e.phase| ==> ThreadInPhase(e.k.threads[t], e.phase[t])
  {
    var e := DiskNext(d, s);
    OthersKeepPhase(d, s);
    if KernelStep(s).Some? {
      StepKeepsInv(d.k, KernelStep(s).value);
      StepFrame(d.k, KernelStep(s).value);
    }
    assert forall t :: 0 <= t < |d.phase| && d.k.cpu != Some(t) ==>
             e.k.threads[t].pc == d.k.threads[t].pc && e.k.threads[t].held == d.k.threads[t].held;
    hide Next, Inv, Enabled, DiskEnabled, Frame, InPhase, DiskNext, KernelNext;
    forall t | 0 <= t < |e.phase|
      ensures ThreadInPhase(e.k.threads[t], e.phase[t])
    {
      if d.k.cpu == Some(t) {
        OwnStepKeepsPhase(d, s, t);
      } else {
        assert ThreadInPhase(d.k.threads[t], d.phase[t]);
      }
    }
  }

  /** How the semaphore's value changes. */
  lemma DiskSemStep(d: DiskSystem, s: DiskStep)
    requires DiskInv(d) && DiskEnabled(d, s)
    ensures var e := DiskNext(d, s);
            && Shape(e)
            && e.k.sems[SEM].value == d.k.sems[SEM].value + (if s.Interrupt? then 1 else 0)
                 - (if (s.Await? || s.AwaitResumed?) && d.k.sems[SEM].value != 0 then 1 else 0)
  {
    hide Next, Inv, Answered, Performed, DataOk;
    OthersKeepPhase(d, s);
    if KernelStep(s).Some? {
      StepFrame(d.k, KernelStep(s).value);
      StepOnSem(d.k, KernelStep(s).value, SEM);
    }
    if d.k.cpu.Some? && d.k.cpu.value < |d.phase| {
      assert ThreadInPhase(d.k.threads[d.k.cpu.value], d.phase[d.k.cpu.value]);
    }
  }

  /** The phase of the running thread after a step. */
  lemma OwnPhase(d: DiskSystem, s: DiskStep, t: nat)
    requires DiskInv(d) && DiskEnabled(d, s) && t < |d.phase| && d.k.cpu == Some(t)
    ensures var e := DiskNext(d, s);
            && Shape(e)
            && (s.Elsewhere? || s.Interrupt? ==> e.phase[t] == d.phase[t])
            && (s.Enter? || s.EnterResumed? ==> !Pending(d.phase[t]) && e.phase[t] in {Entering, Inside})
            && (s.Request? ==> d.phase[t] == Inside && e.phase[t] == Issued && e.ticket[t] == |e.log|)
            && (!s.Request? ==> e.ticket[t] == d.ticket[t])
            && (s.Await? || s.AwaitResumed? ==>
                  Pending(d.phase[t]) && e.phase[t] == if d.k.sems[SEM].value == 0 then Awaiting else Done)
            && (s.Leave? ==> d.phase[t] == Done && e.phase[t] == Outside)
  {
    hide Next, Inv, AcquireLock, Frame, DataOk, Answered, Performed;
    assert ThreadInPhase(d.k.threads[t], d.phase[t]);
    OthersKeepPhase(d, s);
    if KernelStep(s).Some? {
      ProgramStep(d.k, KernelStep(s).value, t);
    }
  }

  /** Between its request and its return, a thread's request stays the latest. */
  lemma StepKeepsServed(d: DiskSystem, s: DiskStep)
    requires DiskInv(d) && DiskEnabled(d, s)
    ensures var e := DiskNext(d, s);
            && Shape(e)
            && forall t :: 0 <= t < |e.phase| && Served(e.phase[t]) ==>
                 e.ticket[t] == |e.log| && Answered(e.sectors, e.log, e.job[t], e.buffer[t])
  {
    hide Inv, InPhase, ThreadInPhase;
    var e := DiskNext(d, s);
    OthersKeepPhase(d, s);
    if d.k.cpu.Some? && d.k.cpu.value < |d.phase| {
      OwnPhase(d, s, d.k.cpu.value);
    }
    hide KernelNext, Enabled, InterruptsOn;
    forall t | 0 <= t < |e.phase| && Served(e.phase[t])
      ensures e.ticket[t] == |e.log| && Answered(e.sectors, e.log, e.job[t], e.buffer[t])
    {
      if s.Request? {
        var u := d.k.cpu.value;
        if t != u {
          OneInside(d, t, u);
        }
      }
    }
  }

  lemma StepKeepsDiskInv(d: DiskSystem, s: DiskStep)
    requires DiskInv(d) && DiskEnabled(d, s)
    ensures DiskInv(DiskNext(d, s))
  {
    hide Inv, InPhase, ThreadInPhase, Answered, Performed, DataOk, KernelNext;
    DiskStepKeepsPhases(d, s);
    OthersKeepPhase(d, s);
    StepKeepsServed(d, s);
    DiskSemStep(d, s);
    CountIsOneWhilePending(d);
    if s.Request? {
      NeverBusyAtRequest(d);
    }
    if d.k.cpu.Some? && d.k.cpu.value < |d.phase| {
      var t := d.k.cpu.value;
      OwnPhase(d, s, t);
      forall u | 0 <= u < |d.phase| && u != t && d.phase[t] in {Inside, Issued, Awaiting, Done}
        ensures d.phase[u] !in {Inside, Issued, Awaiting, Done}
      {
        if d.phase[u] in {Inside, Issued, Awaiting, Done} {
          OneInside(d, t, u);
        }
      }
    }
    hide Enabled, InterruptsOn;
  }

  // ---------- Runs ----------

  ghost predicate DiskStart(d: DiskSystem) {
    && Initial(d.k) && Shape(d) && d.k.sems[SEM].value == 0 && !d.active && d.log == [] && d.finished == 0
    && forall t :: 0 <= t < |d.phase| ==> d.phase[t] == Outside
  }

  ghost predicate DiskRun(ds: seq<DiskSystem>, steps: seq<DiskStep>) {
    && |ds| == |steps| + 1 && DiskStart(ds[0])
    && forall i :: 0 <= i < |steps| ==> Shape(ds[i]) && DiskEnabled(ds[i], steps[i]) && ds[i + 1] == DiskNext(ds[i], steps[i])
  }

  lemma {:induction false} DiskRunKeepsInv(ds: seq<DiskSystem>, steps: seq<DiskStep>, n: nat)
    requires DiskRun(ds, steps) && n < |ds|
    ensures DiskInv(ds[n])
  {
    if n == 0 {
      InitialInv(ds[0].k);
    } else {
      DiskRunKeepsInv(ds, steps, n - 1);
      StepKeepsDiskInv(ds[n - 1], steps[n - 1]);
    }
  }

  /** What the latest write in the log put in a sector, or what was there at first. */
  function LastWritten(first: Disk, log: seq<Job>, x: nat): seq<byte>
    requires x < |first|
  {
    if log == [] then first[x]
    else
      var j := log[|log| - 1];
      if j.WriteJob? && j.sector == x then j.data else LastWritten(first, log[..|log| - 1], x)
  }

  lemma StepKeepsData(first: Disk, d: DiskSystem, s: DiskStep, x: nat)
    requires DiskInv(d) && DiskEnabled(d, s) && x < NUM_SECTORS == |first|
    requires d.sectors[x] == LastWritten(first, d.log, x)
    ensures Shape(DiskNext(d, s)) && DiskNext(d, s).sectors[x] == LastWritten(first, DiskNext(d, s).log, x)
  {
    OthersKeepPhase(d, s);
    if s.Request? {
      var j := d.job[d.k.cpu.value];
      assert (d.log + [j])[..|d.log|] == d.log;
    }
    hide Inv, KernelNext, Enabled;
  }

  lemma {:induction false} SectorsFollowLog(ds: seq<DiskSystem>, steps: seq<DiskStep>, n: nat, x: nat)
    requires DiskRun(ds, steps) && n < |ds| && x < NUM_SECTORS
    ensures Shape(ds[0]) && Shape(ds[n]) && ds[n].sectors[x] == LastWritten(ds[0].sectors, ds[n].log, x)
  {
    DiskRunKeepsInv(ds, steps, n);
    if n > 0 {
      SectorsFollowLog(ds, steps, n - 1, x);
      DiskRunKeepsInv(ds, steps, n - 1);
      StepKeepsData(ds[0].sectors, ds[n - 1], steps[n - 1], x);
    }
  }

  // ---------- The calls, from the steps alone ----------

  /** The call that thread `t` has made latest, among the first `n` steps. */
  function CallOf(ds: seq<DiskSystem>, steps: seq<DiskStep>, t: nat, n: nat): Option<Job>
    requires n <= |steps| <= |ds|
  {
    if n == 0 then None
    else if steps[n - 1].Enter? && ds[n - 1].k.cpu == Some(t) then Some(steps[n - 1].job)
    else CallOf(ds, steps, t, n - 1)
  }

  /** The calls that have reached their request, in the order in which they did. */
  function Requested(ds: seq<DiskSystem>, steps: seq<DiskStep>, n: nat): seq<Job>
    requires n <= |steps| <= |ds|
  {
    if n == 0 then []
    else
      var before := Requested(ds, steps, n - 1);
      if !steps[n - 1].Request? || ds[n - 1].k.cpu == None then before
      else
        var call := CallOf(ds, steps, ds[n - 1].k.cpu.value, n - 1);
        before + if call.Some? then [call.value] else []
  }

  /** How many requests had been made when thread `t`'s latest call made its own, that one included; 0
      before it does. */
  function NumberOf(ds: seq<DiskSystem>, steps: seq<DiskStep>, t: nat, n: nat): nat
    requires n <= |steps| <= |ds|
  {
    if n == 0 then 0
    else if steps[n - 1].Enter? && ds[n - 1].k.cpu == Some(t) then 0
    else if steps[n - 1].Request? && ds[n - 1].k.cpu == Some(t) then |Requested(ds, steps, n)|
    else NumberOf(ds, steps, t, n - 1)
  }

  /** A thread inside ReadSector or WriteSector works on the call that it made. */
  lemma StepKeepsCall(d: DiskSystem, s: DiskStep, t: nat, call: Option<Job>)
    requires DiskInv(d) && DiskEnabled(d, s) && t < |d.phase| && (d.phase[t] != Outside ==> call == Some(d.job[t]))
    ensures var e := DiskNext(d, s);
            && Shape(e) && t < |e.phase|
            && (e.phase[t] != Outside ==> Some(e.job[t]) == if s.Enter? && d.k.cpu == Some(t) then Some(s.job) else call)
  {
    hide Inv, Answered, Performed, InPhase, ThreadInPhase;
    OthersKeepPhase(d, s);
    if d.k.cpu == Some(t) {
      OwnPhase(d, s, t);
    }
    hide Enabled, KernelNext;
  }

  lemma RunStep(ds: seq<DiskSystem>, steps: seq<DiskStep>, i: nat)
    requires DiskRun(ds, steps) && i < |steps| < |ds|
    ensures DiskInv(ds[i]) && DiskEnabled(ds[i], steps[i]) && ds[i + 1] == DiskNext(ds[i], steps[i]) && DiskInv(ds[i + 1])
    ensures Shape(ds[i]) && Shape(ds[i + 1]) && |ds[i].phase| == |ds[i + 1].phase|
  {
    DiskRunKeepsInv(ds, steps, i);
    DiskRunKeepsInv(ds, steps, i + 1);
    OthersKeepPhase(ds[i], steps[i]);
    hide DiskInv, DiskEnabled, DiskNext;
  }

  lemma RunStart(ds: seq<DiskSystem>, steps: seq<DiskStep>)
    requires DiskRun(ds, steps) && ds != []
    ensures Shape(ds[0]) && ds[0].log == [] && ds[0].finished == 0
    ensures forall t :: 0 <= t < |ds[0].phase| ==> ds[0].phase[t] == Outside
  {
  }

  lemma {:induction false} JobIsCall(ds: seq<DiskSystem>, steps: seq<DiskStep>, t: nat, n: nat)
    requires DiskRun(ds, steps) && n <= |steps| < |ds| && t < |ds[n].phase|
    ensures Shape(ds[n]) && (ds[n].phase[t] != Outside ==> CallOf(ds, steps, t, n) == Some(ds[n].job[t]))
  {
    hide DiskRun, DiskNext, DiskEnabled, DiskInv;
    if n == 0 {
      RunStart(ds, steps);
    } else {
      RunStep(ds, steps, n - 1);
      JobIsCall(ds, steps, t, n - 1);
      StepKeepsCall(ds[n - 1], steps[n - 1], t, CallOf(ds, steps, t, n - 1));
    }
  }

  /** What a step adds to the log. */
  lemma StepOnLog(d: DiskSystem, s: DiskStep)
    requires DiskInv(d) && DiskEnabled(d, s)
    ensures var e := DiskNext(d, s);
            && (s.Request? ==>
                  && d.k.cpu.Some? && d.k.cpu.value < |d.phase| == |d.job| && d.phase[d.k.cpu.value] != Outside
                  && e.log == d.log + [d.job[d.k.cpu.value]])
            && (!s.Request? ==> e.log == d.log)
  {
    hide Inv, Answered, Performed, InPhase, Enabled, KernelNext, DataOk;
  }

  /** The number of thread `t`'s request. */
  lemma StepOnTicket(d: DiskSystem, s: DiskStep, t: nat)
    requires DiskInv(d) && DiskEnabled(d, s) && t < |d.phase|
    ensures var e := DiskNext(d, s);
            && Shape(e) && t < |e.phase|
            && (if s.Request? && d.k.cpu == Some(t) then e.ticket[t] == |e.log|
                else e.ticket[t] == d.ticket[t] && (Served(e.phase[t]) ==> Served(d.phase[t])))
            && (s.Enter? && d.k.cpu == Some(t) ==> !Served(e.phase[t]))
  {
    hide Inv, Answered, Performed, InPhase, ThreadInPhase, DataOk;
    OthersKeepPhase(d, s);
    if d.k.cpu == Some(t) {
      OwnPhase(d, s, t);
    }
    hide Enabled, KernelNext;
  }

  lemma {:induction false} LogIsRequested(ds: seq<DiskSystem>, steps: seq<DiskStep>, n: nat)
    requires DiskRun(ds, steps) && n <= |steps| < |ds|
    ensures ds[n].log == Requested(ds, steps, n)
  {
    hide DiskRun, DiskNext, DiskInv;
    if n == 0 {
      RunStart(ds, steps);
    } else {
      RunStep(ds, steps, n - 1);
      LogIsRequested(ds, steps, n - 1);
      StepOnLog(ds[n - 1], steps[n - 1]);
      hide DiskEnabled;
      if steps[n - 1].Request? {
        JobIsCall(ds, steps, ds[n - 1].k.cpu.value, n - 1);
      }
    }
  }

  lemma {:induction false} TicketIsNumber(ds: seq<DiskSystem>, steps: seq<DiskStep>, t: nat, n: nat)
    requires DiskRun(ds, steps) && n <= |steps| < |ds| && t < |ds[n].phase|
    ensures Shape(ds[n]) && (Served(ds[n].phase[t]) ==> ds[n].ticket[t] == NumberOf(ds, steps, t, n))
  {
    hide DiskRun, DiskNext, DiskEnabled, DiskInv, Requested;
    LogIsRequested(ds, steps, n);
    if n == 0 {
      RunStart(ds, steps);
    } else {
      RunStep(ds, steps, n - 1);
      StepOnTicket(ds[n - 1], steps[n - 1], t);
      TicketIsNumber(ds, steps, t, n - 1);
    }
  }

  /** Over every run, each sector holds what the latest write call to reach its request put there. */
  lemma SectorsHoldLastWrite(ds: seq<DiskSystem>, steps: seq<DiskStep>, n: nat, x: nat)
    requires DiskRun(ds, steps) && n <= |steps| < |ds| && x < NUM_SECTORS
    ensures Shape(ds[0]) && Shape(ds[n]) && ds[n].sectors[x] == LastWritten(ds[0].sectors, Requested(ds, steps, n), x)
  {
    SectorsFollowLog(ds, steps, n, x);
    LogIsRequested(ds, steps, n);
  }

  /** The completion interrupts among the first `n` steps. */
  function Completed(steps: seq<DiskStep>, n: nat): nat
    requires n <= |steps|
  {
    if n == 0 then 0 else Completed(steps, n - 1) + if steps[n - 1].Interrupt? then 1 else 0
  }

  lemma {:induction false} FinishedIsCompleted(ds: seq<DiskSystem>, steps: seq<DiskStep>, n: nat)
    requires DiskRun(ds, steps) && n <= |steps| < |ds|
    ensures ds[n].finished == Completed(steps, n)
  {
    hide DiskRun, Shape, DiskEnabled, DiskInv, KernelNext;
    if n == 0 {
      RunStart(ds, steps);
    } else {
      FinishedIsCompleted(ds, steps, n - 1);
      RunStep(ds, steps, n - 1);
    }
  }

  /** Over every run, with any other threads, calls and interrupts in between, and told from the steps
      alone: the disk is idle at each request; the semaphore's value and the active flag count the one
      request pending; and a call returns only when its own request, the latest of all, has been made
      and completed: a read with what the latest write call to reach its request before it put in the
      sector, a write with its data there. */
  lemma RequestsAreSerialised(ds: seq<DiskSystem>, steps: seq<DiskStep>, n: nat)
    requires DiskRun(ds, steps) && n < |steps| < |ds|
    ensures var d := ds[n]; var calls := Requested(ds, steps, n);
            && Shape(d)
            && (steps[n] == Request ==> !d.active && |calls| == Completed(steps, n))
            && d.k.sems[SEM].value + Flag(d.active) ==
                 (if exists t :: 0 <= t < |d.phase| && Pending(d.phase[t]) then 1 else 0)
            && (steps[n] == Leave ==>
                  && d.k.cpu.Some? && d.k.cpu.value < |d.phase|
                  && var t := d.k.cpu.value; var call := CallOf(ds, steps, t, n); var m := NumberOf(ds, steps, t, n);
                     && 0 < m == |calls| == Completed(steps, n) && call == Some(calls[m - 1])
                     && var j := calls[m - 1];
                        && j.sector < NUM_SECTORS == |ds[0].sectors|
                        && (j.ReadJob? ==> d.buffer[t] == LastWritten(ds[0].sectors, calls[..m - 1], j.sector))
                        && (j.WriteJob? ==> d.sectors[j.sector] == j.data))
  {
    DiskRunKeepsInv(ds, steps, n);
    LogIsRequested(ds, steps, n);
    FinishedIsCompleted(ds, steps, n);
    var d := ds[n];
    CountIsOneWhilePending(d);
    if steps[n] == Request {
      NeverBusyAtRequest(d);
    } else if steps[n] == Leave {
      ReturnedCall(ds, steps, n);
    }
  }

  lemma ReturnedCall(ds: seq<DiskSystem>, steps: seq<DiskStep>, n: nat)
    requires DiskRun(ds, steps) && n < |steps| < |ds| && steps[n] == Leave
    ensures var d := ds[n]; var calls := Requested(ds, steps, n);
            && Shape(d) && d.k.cpu.Some? && d.k.cpu.value < |d.phase|
            && var t := d.k.cpu.value; var m := NumberOf(ds, steps, t, n);
               && 0 < m == |calls| == d.finished && CallOf(ds, steps, t, n) == Some(calls[m - 1])
               && var j := calls[m - 1];
                  && j.sector < NUM_SECTORS == |ds[0].sectors|
                  && (j.ReadJob? ==> d.buffer[t] == LastWritten(ds[0].sectors, calls[..m - 1], j.sector))
                  && (j.WriteJob? ==> d.sectors[j.sector] == j.data)
  {
    hide Inv, InPhase, Enabled, Requested, NumberOf, CallOf, DiskNext;
    DiskRunKeepsInv(ds, steps, n);
    var d := ds[n];
    ReturnsAfterCompletion(d);
    var t := d.k.cpu.value;
    assert DiskEnabled(d, Leave) && Served(d.phase[t]) && JobOk(d.job[t]);
    LogIsRequested(ds, steps, n);
    JobIsCall(ds, steps, t, n);
    TicketIsNumber(ds, steps, t, n);
    SectorsFollowLog(ds, steps, n, d.job[t].sector);
  }
}
