/** The lock server (network/nettest.cc, lock messages only): locks held by clients on other machines,
    with the waiting requests kept as text. Until it is deleted, a server lock is the same
    first-come lock as the kernel's. */
module LockServer {
  import opened Options
  import opened HandOffLocks
  import opened TextStreams

  const MAX_LOCK_COUNT := 50

  /** A client: its machine and its mailbox there. */
  datatype Client = Client(machineId: int, mailboxNum: int)

  const NOBODY := Client(-1, -1)

  predicate IsClient(c: Client) {
    IsInt(c.machineId) && IsInt(c.mailboxNum) && c != NOBODY
  }

  datatype ServerLock = ServerLock(
    name: string, status: LockStatus, owner: Client, queue: seq<string>, deleteFlag: bool, isDeleted: bool)

  /** What a request carries: who sends it, to which of the server's mailboxes, and what it asks. */
  datatype Call = Create(name: string) | Acquire(index: int) | Release(index: int) | Destroy(index: int)

  datatype Request = Request(who: Client, box: int, call: Call)

  datatype Reply = Reply(to: Client, from: int, text: string)

  const GRANTED := "You got the lock!"

  // ---------- Waiting requests as text ----------

  /** putMsgLock. */
  function WaiterText(who: Client, box: int): string {
    ShowInt(who.machineId) + " " + ShowInt(who.mailboxNum) + " " + ShowInt(box) + " " + ShowInt(0)
  }

  /** What Release_server reads from a waiting request: the client, and the mailbox it wrote to. */
  function ReadWaiter(text: string): (Client, int) {
    var (machineId, s1) := ReadInt(Stream(text, true), -1);
    var (mailboxNum, s2) := ReadInt(s1, -1);
    var (box, s3) := ReadInt(s2, -1);
    (Client(machineId, mailboxNum), box)
  }

  lemma WaiterRoundTrip(who: Client, box: int)
    requires IsInt(who.machineId) && IsInt(who.mailboxNum) && IsInt(box)
    ensures ReadWaiter(WaiterText(who, box)) == (who, box)
  {
    hide ShowInt, ReadInt;
    var t3 := " " + ShowInt(0);
    var t2 := " " + ShowInt(box) + t3;
    var t1 := " " + ShowInt(who.mailboxNum) + t2;
    assert WaiterText(who, box) == "" + ShowInt(who.machineId) + t1;
    IntReadsBack(who.machineId, false, t1, -1);
    IntReadsBack(who.mailboxNum, true, t2, -1);
    IntReadsBack(box, true, t3, -1);
  }

  // ---------- The handlers ----------

  /** sendMessageToClient, when the packet names this sender and this mailbox. */
  function Answer(who: Client, box: int, text: string): Reply {
    Reply(who, box, text)
  }

  predicate ValidIndex(locks: seq<ServerLock>, i: int) {
    0 <= i < |locks| && !locks[i].isDeleted
  }

  /** The lock of this name that is not deleted, from `i` on, or -1. */
  function FindName(locks: seq<ServerLock>, name: string, i: nat): (r: int)
    requires i <= |locks|
    ensures r == -1 || (i <= r < |locks| && locks[r].name == name && !locks[r].isDeleted)
    ensures r == -1 ==> forall j :: i <= j < |locks| && locks[j].name == name ==> locks[j].isDeleted
    decreases |locks| - i
  {
    if i == |locks| then -1
    else if locks[i].name == name && !locks[i].isDeleted then i
    else FindName(locks, name, i + 1)
  }

  function NewLock(name: string): ServerLock {
    ServerLock(name, FREE, NOBODY, [], false, false)
  }

  /** CreateLock_server, and the reply with the index that Server sends after it. After a refusal the
      header has been turned round twice, so that reply goes to the server's own mailbox number. */
  function DoCreate(locks: seq<ServerLock>, r: Request, name: string): (seq<ServerLock>, seq<Reply>) {
    if |locks| >= MAX_LOCK_COUNT then
      (locks, [Answer(r.who, r.box, "Too many locks!"), Answer(Client(r.who.machineId, r.box), r.who.mailboxNum, ShowInt(-1))])
    else
      var i := FindName(locks, name, 0);
      if i != -1 then (locks, [Answer(r.who, r.box, ShowInt(i))])
      else (locks + [NewLock(name)], [Answer(r.who, r.box, ShowInt(|locks|))])
  }

  function DoAcquire(locks: seq<ServerLock>, r: Request, i: int): (seq<ServerLock>, seq<Reply>) {
    if !ValidIndex(locks, i) then (locks, [Answer(r.who, r.box, "Invalid lock index!")])
    else if r.who == locks[i].owner then (locks, [Answer(r.who, r.box, "Lock is yours. Done nothing.")])
    else if locks[i].status == FREE then
      (locks[i := locks[i].(status := BUSY, owner := r.who)], [Answer(r.who, r.box, GRANTED)])
    else (locks[i := locks[i].(queue := locks[i].queue + [WaiterText(r.who, r.box)])], [])
  }

  /** The replies to the owner come from its own mailbox number: the header was overwritten with it. */
  function DoRelease(locks: seq<ServerLock>, r: Request, i: int): (seq<ServerLock>, seq<Reply>) {
    if !ValidIndex(locks, i) then (locks, [Answer(r.who, r.box, "Invalid lock index!")])
    else if r.who != locks[i].owner then (locks, [Answer(r.who, r.box, "No permission to release!")])
    else if locks[i].deleteFlag then
      (locks[i := locks[i].(isDeleted := true)], [Answer(r.who, r.who.mailboxNum, "Released, the lock is also deleted.")])
    else if locks[i].queue != [] then
      var (next, box) := ReadWaiter(locks[i].queue[0]);
      (locks[i := locks[i].(owner := next, queue := locks[i].queue[1..])],
       [Answer(r.who, r.who.mailboxNum, "Released. Another thread took it."), Answer(next, box, GRANTED)])
    else
      (locks[i := locks[i].(status := FREE, owner := NOBODY)],
       [Answer(r.who, r.who.mailboxNum, "You released the lock!")])
  }

  /** The reply about a busy lock goes to the mailbox number that the request was sent to. */
  function DoDestroy(locks: seq<ServerLock>, r: Request, i: int): (seq<ServerLock>, seq<Reply>) {
    if !ValidIndex(locks, i) then (locks, [Answer(r.who, r.box, "Invalid lock index!")])
    else if locks[i].status == BUSY then
      (locks[i := locks[i].(deleteFlag := true)],
       [Answer(Client(r.who.machineId, r.box), locks[i].owner.mailboxNum, "Lock is in use will be destroyed later.")])
    else
      (locks[i := locks[i].(status := FREE, owner := NOBODY, isDeleted := true)],
       [Answer(r.who, r.box, "You destroyed the lock!")])
  }

  function Handle(locks: seq<ServerLock>, r: Request): (seq<ServerLock>, seq<Reply>) {
    match r.call
    case Create(name) => DoCreate(locks, r, name)
    case Acquire(i) => DoAcquire(locks, r, i)
    case Release(i) => DoRelease(locks, r, i)
    case Destroy(i) => DoDestroy(locks, r, i)
  }

  // ---------- A server lock as an abstract lock ----------

  /** The text of a waiting request from this client. */
  ghost predicate WaitsFor(text: string, who: Client) {
    IsClient(who) && exists box :: IsInt(box) && text == WaiterText(who, box)
  }

  ghost predicate StandsFor(l: ServerLock, f: Fifo<Client>) {
    && FifoOk(f) && (l.status == BUSY <==> f.held)
    && l.owner == (if f.held then f.granted[|f.granted| - 1] else NOBODY)
    && |l.queue| == |f.waiting|
    && (forall j :: 0 <= j < |l.queue| ==> WaitsFor(l.queue[j], f.waiting[j]))
    && (forall c :: c in f.granted ==> IsClient(c))
  }

  const NEW_FIFO: Fifo<Client> := Fifo([], [], false)

  predicate GoodRequest(r: Request) {
    IsClient(r.who) && IsInt(r.box)
  }

  /** What a request does to lock `i`, if the lock is there. */
  function EventOn(locks: seq<ServerLock>, r: Request, i: int): Option<Event<Client>> {
    if !ValidIndex(locks, i) then None
    else
      match r.call
      case Acquire(j) => if j == i then Some(Arrives(r.who)) else None
      case Release(j) => if j == i then Some(Leaves(r.who)) else None
      case _ => None
  }

  function Apply(f: Fifo<Client>, e: Option<Event<Client>>): Fifo<Client>
    requires FifoOk(f)
  {
    match e
    case None => f
    case Some(ev) => FifoNext(f, ev)
  }

  /** The clients told that they have the lock. */
  function Told(replies: seq<Reply>): seq<Client> {
    if replies == [] then []
    else (if replies[0].text == GRANTED then [replies[0].to] else []) + Told(replies[1..])
  }

  lemma ToldOne(x: Reply)
    ensures Told([x]) == if x.text == GRANTED then [x.to] else []
  {
    assert Told([x][1..]) == [];
  }

  lemma ToldTwo(x: Reply, y: Reply)
    requires |x.text| != |GRANTED| && y.text == GRANTED
    ensures Told([x, y]) == [y.to]
  {
    assert [x, y][1..] == [y];
    ToldOne(y);
  }

  lemma AcquireStands(locks: seq<ServerLock>, r: Request, i: int, f: Fifo<Client>)
    requires GoodRequest(r) && ValidIndex(locks, i) && StandsFor(locks[i], f)
    ensures var (after, replies) := DoAcquire(locks, r, i);
            && |after| == |locks| && StandsFor(after[i], Arrive(f, r.who))
            && Arrive(f, r.who).granted == f.granted + Told(replies)
  {
    var (after, replies) := DoAcquire(locks, r, i);
    assert f.held ==> f.granted[|f.granted| - 1] in f.granted;
    if r.who == locks[i].owner {
      assert |replies[0].text| != |GRANTED|;
      ToldOne(replies[0]);
    } else if locks[i].status == FREE {
      ToldOne(replies[0]);
    } else {
      assert WaitsFor(WaiterText(r.who, r.box), r.who);
    }
    hide WaitsFor, WaiterText, Told;
  }

  /** The first waiting request names the client that has waited longest. */
  lemma FirstWaiter(l: ServerLock, f: Fifo<Client>)
    requires StandsFor(l, f) && l.queue != []
    ensures ReadWaiter(l.queue[0]).0 == f.waiting[0] && IsClient(f.waiting[0])
  {
    assert WaitsFor(l.queue[0], f.waiting[0]);
    var box :| IsInt(box) && l.queue[0] == WaiterText(f.waiting[0], box);
    WaiterRoundTrip(f.waiting[0], box);
  }

  lemma HandOverStands(l: ServerLock, f: Fifo<Client>)
    requires StandsFor(l, f) && l.queue != [] && f.held
    ensures StandsFor(l.(owner := ReadWaiter(l.queue[0]).0, queue := l.queue[1..]),
                      Fifo(f.granted + [f.waiting[0]], f.waiting[1..], true))
  {
    FirstWaiter(l, f);
    hide WaitsFor, ReadWaiter;
  }

  lemma ReleaseStands(locks: seq<ServerLock>, r: Request, i: int, f: Fifo<Client>)
    requires GoodRequest(r) && ValidIndex(locks, i) && StandsFor(locks[i], f)
    requires !DoRelease(locks, r, i).0[i].isDeleted
    ensures var (after, replies) := DoRelease(locks, r, i);
            && |after| == |locks| && StandsFor(after[i], Leave(f, r.who))
            && Leave(f, r.who).granted == f.granted + Told(replies)
  {
    var replies := DoRelease(locks, r, i).1;
    hide WaitsFor, WaiterText, ReadWaiter;
    assert |replies[0].text| != |GRANTED|;
    ToldOne(replies[0]);
    if r.who == locks[i].owner && locks[i].queue != [] {
      HandOverStands(locks[i], f);
      FirstWaiter(locks[i], f);
      ToldTwo(replies[0], replies[1]);
    }
    hide Told;
  }

  /** The grants of lock `i` that a request makes the server send. */
  function GrantsBy(locks: seq<ServerLock>, r: Request, i: int): seq<Client> {
    if EventOn(locks, r, i).Some? then Told(Handle(locks, r).1) else []
  }

  lemma StepStands(locks: seq<ServerLock>, r: Request, i: nat, f: Fifo<Client>)
    requires GoodRequest(r) && ValidIndex(locks, i) && StandsFor(locks[i], f)
    requires |Handle(locks, r).0| > i && !Handle(locks, r).0[i].isDeleted
    ensures var after := Handle(locks, r).0; var g := Apply(f, EventOn(locks, r, i));
            StandsFor(after[i], g) && g.granted == f.granted + GrantsBy(locks, r, i)
  {
    hide Told, WaitsFor, ReadWaiter, WaiterText;
    match r.call {
      case Create(name) =>
      case Acquire(j) =>
        if j == i {
          AcquireStands(locks, r, i, f);
        }
      case Release(j) =>
        if j == i {
          ReleaseStands(locks, r, i, f);
        }
      case Destroy(j) =>
    }
  }

  lemma LocksStay(locks: seq<ServerLock>, r: Request, i: nat)
    ensures |locks| <= |Handle(locks, r).0| <= |locks| + 1
    ensures i < |locks| && locks[i].isDeleted ==> Handle(locks, r).0[i].isDeleted
    ensures |locks| == i < |Handle(locks, r).0| ==> exists name :: Handle(locks, r).0[i] == NewLock(name)
  {
    hide Told, ReadWaiter, WaiterText, FindName;
    if r.call.Create? && |locks| == i < |Handle(locks, r).0| {
      assert Handle(locks, r).0[i] == NewLock(r.call.name);
    }
  }

  // ---------- Runs ----------

  ghost predicate ServerRun(ss: seq<seq<ServerLock>>, rs: seq<Request>) {
    && |ss| == |rs| + 1 && ss[0] == []
    && forall k :: 0 <= k < |rs| ==> GoodRequest(rs[k]) && ss[k + 1] == Handle(ss[k], rs[k]).0
  }

  /** What the first `n` requests do to lock `i`. */
  function EventsFor(ss: seq<seq<ServerLock>>, rs: seq<Request>, i: nat, n: nat): seq<Event<Client>>
    requires n <= |rs| <= |ss|
  {
    if n == 0 then []
    else
      var e := EventOn(ss[n - 1], rs[n - 1], i);
      EventsFor(ss, rs, i, n - 1) + if e.Some? then [e.value] else []
  }

  /** The clients told, during the first `n` requests, that lock `i` is theirs, in order. */
  function GrantsFor(ss: seq<seq<ServerLock>>, rs: seq<Request>, i: nat, n: nat): seq<Client>
    requires n <= |rs| <= |ss|
  {
    if n == 0 then [] else GrantsFor(ss, rs, i, n - 1) + GrantsBy(ss[n - 1], rs[n - 1], i)
  }

  function FifoFor(ss: seq<seq<ServerLock>>, rs: seq<Request>, i: nat, n: nat): (f: Fifo<Client>)
    requires n <= |rs| <= |ss|
    ensures FifoOk(f)
  {
    FifoAfter(NEW_FIFO, EventsFor(ss, rs, i, n))
  }

  lemma FifoForNext(ss: seq<seq<ServerLock>>, rs: seq<Request>, i: nat, n: nat)
    requires 0 < n <= |rs| <= |ss|
    ensures FifoFor(ss, rs, i, n) == Apply(FifoFor(ss, rs, i, n - 1), EventOn(ss[n - 1], rs[n - 1], i))
  {
    var es := EventsFor(ss, rs, i, n);
    if EventOn(ss[n - 1], rs[n - 1], i).Some? {
      assert es[..|es| - 1] == EventsFor(ss, rs, i, n - 1);
    } else {
      assert es == EventsFor(ss, rs, i, n - 1);
    }
  }

  lemma {:induction false} NothingBeforeCreation(ss: seq<seq<ServerLock>>, rs: seq<Request>, i: nat, n: nat)
    requires ServerRun(ss, rs) && n <= |rs| && |ss[n]| <= i
    ensures EventsFor(ss, rs, i, n) == [] && GrantsFor(ss, rs, i, n) == []
  {
    if n > 0 {
      LocksStay(ss[n - 1], rs[n - 1], i);
      hide Handle;
      NothingBeforeCreation(ss, rs, i, n - 1);
    }
  }

  lemma {:induction false} RunStands(ss: seq<seq<ServerLock>>, rs: seq<Request>, i: nat, n: nat)
    requires ServerRun(ss, rs) && |ss| == |rs| + 1 && n <= |rs| && ValidIndex(ss[n], i)
    ensures StandsFor(ss[n][i], FifoFor(ss, rs, i, n)) && FifoFor(ss, rs, i, n).granted == GrantsFor(ss, rs, i, n)
  {
    hide Handle, EventOn, StandsFor, FifoFor, GrantsBy, Apply, EventsFor;
    if n > 0 {
      var locks, r := ss[n - 1], rs[n - 1];
      assert ss[n] == Handle(locks, r).0 && GoodRequest(r);
      LocksStay(locks, r, i);
      FifoForNext(ss, rs, i, n);
      if i < |locks| {
        RunStands(ss, rs, i, n - 1);
        StepStands(locks, r, i, FifoFor(ss, rs, i, n - 1));
      } else {
        CreationStands(ss, rs, i, n);
      }
    }
  }

  lemma CreationStands(ss: seq<seq<ServerLock>>, rs: seq<Request>, i: nat, n: nat)
    requires ServerRun(ss, rs) && 0 < n <= |rs| && |ss[n - 1]| <= i < |ss[n]|
    ensures StandsFor(ss[n][i], FifoFor(ss, rs, i, n)) && FifoFor(ss, rs, i, n).granted == GrantsFor(ss, rs, i, n)
  {
    LocksStay(ss[n - 1], rs[n - 1], i);
    NothingBeforeCreation(ss, rs, i, n - 1);
    hide Handle;
    assert EventOn(ss[n - 1], rs[n - 1], i) == None;
    assert EventsFor(ss, rs, i, n) == [] && GrantsFor(ss, rs, i, n) == [];
  }

  /** Over every run of lock requests, and until it is deleted, a server lock is the abstract
      first-come lock: it is BUSY exactly while a client owns it, only the owner's release moves it on,
      and the clients told that they have it, then those waiting, are those that asked, once each and
      in order. */
  lemma ServerLockIsFifo(ss: seq<seq<ServerLock>>, rs: seq<Request>, i: nat, n: nat)
    requires ServerRun(ss, rs) && |ss| == |rs| + 1 && n <= |rs| && ValidIndex(ss[n], i)
    ensures var l := ss[n][i]; var f := FifoFor(ss, rs, i, n); var told := GrantsFor(ss, rs, i, n);
            && told + f.waiting == Arrivals(NEW_FIFO, EventsFor(ss, rs, i, n))
            && |l.queue| == |f.waiting| && (forall j :: 0 <= j < |l.queue| ==> ReadWaiter(l.queue[j]).0 == f.waiting[j])
            && (l.status == BUSY <==> l.owner != NOBODY)
            && (l.status == BUSY ==> told != [] && l.owner == told[|told| - 1])
            && (l.status == FREE ==> l.queue == [])
  {
    RunStands(ss, rs, i, n);
    GrantedInArrivalOrder(NEW_FIFO, EventsFor(ss, rs, i, n));
    var l, f := ss[n][i], FifoFor(ss, rs, i, n);
    hide FifoFor, EventsFor, GrantsFor, Arrivals;
    forall j | 0 <= j < |l.queue|
      ensures ReadWaiter(l.queue[j]).0 == f.waiting[j]
    {
      assert WaitsFor(l.queue[j], f.waiting[j]);
      var box :| IsInt(box) && l.queue[j] == WaiterText(f.waiting[j], box);
      WaiterRoundTrip(f.waiting[j], box);
    }
    assert f.held ==> f.granted[|f.granted| - 1] in f.granted;
  }

  // ---------- Who is answered ----------

  /** The request waits for a lock that another client owns. */
  predicate IsQueued(locks: seq<ServerLock>, r: Request) {
    && r.call.Acquire? && ValidIndex(locks, r.call.index)
    && locks[r.call.index].owner != r.who && locks[r.call.index].status == BUSY
  }

  predicate DestroysBusy(locks: seq<ServerLock>, r: Request) {
    r.call.Destroy? && ValidIndex(locks, r.call.index) && locks[r.call.index].status == BUSY
  }

  predicate CreatesInFullTable(locks: seq<ServerLock>, r: Request) {
    r.call.Create? && |locks| >= MAX_LOCK_COUNT
  }

  /** The owner releases a lock that others wait for. */
  predicate HandsOver(locks: seq<ServerLock>, r: Request) {
    && r.call.Release? && ValidIndex(locks, r.call.index) && r.who == locks[r.call.index].owner
    && !locks[r.call.index].deleteFlag && locks[r.call.index].queue != []
  }

  /** A reply goes to the sender, or tells the lock's new owner that it has it. */
  predicate GoesRight(locks: seq<ServerLock>, r: Request, reply: Reply) {
    || reply.to == r.who
    || (HandsOver(locks, r) && reply == Answer(ReadWaiter(locks[r.call.index].queue[0]).0,
                                               ReadWaiter(locks[r.call.index].queue[0]).1, GRANTED))
  }

  /** Every reply to a request goes where it should, unless the request creates a lock when there is no
      room or destroys a lock in use, and comes from another mailbox number than it was sent to; then,
      and only then, one goes to the client's machine at the server's mailbox number. */
  lemma RepliesGoRightIff(locks: seq<ServerLock>, r: Request)
    ensures var replies := Handle(locks, r).1;
            && ((forall k :: 0 <= k < |replies| ==> GoesRight(locks, r, replies[k])) <==>
                  !((CreatesInFullTable(locks, r) || DestroysBusy(locks, r)) && r.box != r.who.mailboxNum))
            && forall k :: 0 <= k < |replies| && !GoesRight(locks, r, replies[k]) ==>
                 replies[k].to == Client(r.who.machineId, r.box)
  {
    hide ShowInt, ReadWaiter, WaiterText, FindName;
    var replies := Handle(locks, r).1;
    if (CreatesInFullTable(locks, r) || DestroysBusy(locks, r)) && r.box != r.who.mailboxNum {
      assert !GoesRight(locks, r, replies[|replies| - 1]);
    }
  }

  /** A request has no reply at once exactly when it is queued, and two exactly when it hands a lock over
      or creates one when there is no room; with equal mailbox numbers, both refusals go to the sender. */
  lemma HowManyReplies(locks: seq<ServerLock>, r: Request)
    ensures var replies := Handle(locks, r).1;
            && |replies| == (if IsQueued(locks, r) then 0
                             else if HandsOver(locks, r) || CreatesInFullTable(locks, r) then 2 else 1)
            && (CreatesInFullTable(locks, r) && r.box == r.who.mailboxNum ==> replies[0].to == replies[1].to == r.who)
  {
    hide ShowInt, ReadWaiter, WaiterText, FindName;
  }

  /** A request is answered to its sender at once if and only if it is neither queued, nor destroys a lock
      in use from another mailbox number. */
  lemma SenderIsAnswered(locks: seq<ServerLock>, r: Request)
    ensures var replies := Handle(locks, r).1;
            (exists k :: 0 <= k < |replies| && replies[k].to == r.who) <==>
              !IsQueued(locks, r) && !(DestroysBusy(locks, r) && r.box != r.who.mailboxNum)
  {
    hide ShowInt, ReadWaiter, WaiterText, FindName;
    var replies := Handle(locks, r).1;
    if !IsQueued(locks, r) && !(DestroysBusy(locks, r) && r.box != r.who.mailboxNum) {
      assert replies[0].to == r.who;
    }
  }

  /** What the first reply says, told by what the request does: who owns the lock before and after it,
      and whether it is deleted, now or later. */
  lemma ReplySays(locks: seq<ServerLock>, r: Request)
    requires !r.call.Create? && Handle(locks, r).1 != []
    requires ValidIndex(locks, r.call.index) ==> (locks[r.call.index].status == BUSY <==> locks[r.call.index].owner != NOBODY)
    requires IsClient(r.who)
    ensures var (after, replies) := Handle(locks, r); var i := r.call.index; var text := replies[0].text;
            if !ValidIndex(locks, i) then text == "Invalid lock index!" && after == locks
            else
              && |after| == |locks|
              && var was, now := locks[i], after[i];
                 match r.call
                 case Acquire(_) =>
                   && now.owner == r.who
                   && text == (if was.owner == r.who then "Lock is yours. Done nothing." else "You got the lock!")
                 case Release(_) =>
                   text == (if was.owner != r.who then "No permission to release!"
                            else if now.isDeleted then "Released, the lock is also deleted."
                            else if now.status == FREE then "You released the lock!"
                            else "Released. Another thread took it.")
                 case Destroy(_) =>
                   text == (if now.isDeleted then "You destroyed the lock!" else "Lock is in use will be destroyed later.")
  {
    hide ShowInt, ReadWaiter, WaiterText, FindName;
  }

  /** The two refusals of a Create when there is no room, and the mailbox number that a reply comes from:
      the one written to, but for an owner's release, which is answered from its own number, and the
      destruction of a lock in use, answered from its owner's. */
  lemma ReplyComesFrom(locks: seq<ServerLock>, r: Request)
    ensures var replies := Handle(locks, r).1;
            && (CreatesInFullTable(locks, r) ==>
                  |replies| == 2 && (replies[0].text, replies[0].from) == ("Too many locks!", r.box)
                  && (replies[1].text, replies[1].from) == (ShowInt(-1), r.who.mailboxNum))
            && (replies != [] ==>
                  replies[0].from ==
                    if r.call.Release? && ValidIndex(locks, r.call.index) && locks[r.call.index].owner == r.who then r.who.mailboxNum
                    else if DestroysBusy(locks, r) then locks[r.call.index].owner.mailboxNum
                    else r.box)
  {
    hide ShowInt, ReadWaiter, WaiterText, FindName;
  }

  // ---------- Deletion ----------

  /** A lock is deleted by a Destroy when it is free, and by its owner's release when it was marked; a
      Destroy of a lock in use only marks it. Nothing else deletes or marks it. */
  lemma DeletedIff(locks: seq<ServerLock>, r: Request, i: nat)
    requires ValidIndex(locks, i)
    ensures var after := Handle(locks, r).0;
            && i < |after|
            && (after[i].isDeleted <==>
                  || (r.call == Destroy(i) && locks[i].status == FREE)
                  || (r.call == Release(i) && r.who == locks[i].owner && locks[i].deleteFlag))
            && (after[i].deleteFlag <==> locks[i].deleteFlag || (r.call == Destroy(i) && locks[i].status == BUSY))
  {
    hide ShowInt, ReadWaiter, WaiterText, FindName;
  }

  /** Request `m` of a run destroys lock `i` while it is in use. */
  predicate MarkedBy(ss: seq<seq<ServerLock>>, rs: seq<Request>, i: nat, m: nat) {
    m < |rs| && m < |ss| && rs[m].call == Destroy(i) && ValidIndex(ss[m], i) && ss[m][i].status == BUSY
  }

  /** Over every run: a lock in use goes only when its owner releases it, and only after a Destroy. */
  lemma {:induction false} MarkedIff(ss: seq<seq<ServerLock>>, rs: seq<Request>, i: nat, n: nat)
    requires ServerRun(ss, rs) && |ss| == |rs| + 1 && n <= |rs| && ValidIndex(ss[n], i)
    ensures ss[n][i].deleteFlag <==> exists m :: 0 <= m < n && MarkedBy(ss, rs, i, m)
  {
    if n > 0 {
      LocksStay(ss[n - 1], rs[n - 1], i);
      if i < |ss[n - 1]| {
        DeletedIff(ss[n - 1], rs[n - 1], i);
        hide Handle;
        MarkedIff(ss, rs, i, n - 1);
        assert MarkedBy(ss, rs, i, n - 1) <==> rs[n - 1].call == Destroy(i) && ss[n - 1][i].status == BUSY;
        assert (exists m :: 0 <= m < n && MarkedBy(ss, rs, i, m)) <==>
          (exists m :: 0 <= m < n - 1 && MarkedBy(ss, rs, i, m)) || MarkedBy(ss, rs, i, n - 1);
      } else {
        NotYetMarked(ss, rs, i, n - 1);
      }
    }
  }

  lemma {:induction false} NotYetMarked(ss: seq<seq<ServerLock>>, rs: seq<Request>, i: nat, n: nat)
    requires ServerRun(ss, rs) && |ss| == |rs| + 1 && n <= |rs| && |ss[n]| <= i
    ensures forall m :: 0 <= m <= n ==> |ss[m]| <= i
  {
    if n > 0 {
      LocksStay(ss[n - 1], rs[n - 1], i);
      hide Handle;
      NotYetMarked(ss, rs, i, n - 1);
    }
  }

  lemma BusyLockGoesAfterDestroy(ss: seq<seq<ServerLock>>, rs: seq<Request>, i: nat, n: nat) returns (m: nat)
    requires ServerRun(ss, rs) && |ss| == |rs| + 1 && n < |rs| && ValidIndex(ss[n], i) && ss[n][i].status == BUSY
    requires !ValidIndex(ss[n + 1], i)
    ensures rs[n].call == Release(i) && rs[n].who == ss[n][i].owner
    ensures m < n && MarkedBy(ss, rs, i, m)
  {
    LocksStay(ss[n], rs[n], i);
    DeletedIff(ss[n], rs[n], i);
    MarkedIff(ss, rs, i, n);
    hide Handle;
    m :| m < n && MarkedBy(ss, rs, i, m);
  }

  // ---------- Runs with stray replies ----------

  /** From the start, a client at mailbox 2 that writes to mailbox 0 makes a lock, takes it and destroys it:
      the last reply goes to mailbox 0 of its machine, and the client is not answered. */
  lemma DestroyReplyStrays() returns (ss: seq<seq<ServerLock>>, rs: seq<Request>)
    ensures ServerRun(ss, rs) && |rs| == 3 && rs[2] == Request(Client(1, 2), 0, Destroy(0))
    ensures var replies := Handle(ss[2], rs[2]).1;
            |replies| == 1 && replies[0].to == Client(1, 0) && !GoesRight(ss[2], rs[2], replies[0])
  {
    hide ShowInt, ReadWaiter, WaiterText, GoesRight;
    var who := Client(1, 2);
    var l0, l1 := NewLock("a"), NewLock("a").(status := BUSY, owner := who);
    rs := [Request(who, 0, Create("a")), Request(who, 0, Acquire(0)), Request(who, 0, Destroy(0))];
    ss := [[], [l0], [l1], [l1.(deleteFlag := true)]];
    assert [] + [l0] == [l0] && [l0][0 := l1] == [l1] && [l1][0 := l1.(deleteFlag := true)] == [l1.(deleteFlag := true)];
    assert Handle(ss[0], rs[0]).0 == ss[1];
    assert Handle(ss[1], rs[1]).0 == ss[2];
    assert Handle(ss[2], rs[2]).0 == ss[3];
    RepliesGoRightIff(ss[2], rs[2]);
  }

  function ManyAs(n: nat): string {
    seq(n, _ => 'a')
  }

  function MakeLock(n: nat): Request {
    Request(Client(1, 2), 0, Create(ManyAs(n)))
  }

  /** Creating locks of different names fills the table. */
  lemma {:induction false} FillTable(n: nat) returns (ss: seq<seq<ServerLock>>, rs: seq<Request>)
    requires n <= MAX_LOCK_COUNT
    ensures ServerRun(ss, rs) && |ss| == |rs| + 1 == n + 1 && |ss[n]| == n
    ensures forall i :: 0 <= i < n ==> |ss[n][i].name| == i
  {
    if n == 0 {
      ss, rs := [[]], [];
    } else {
      var ts, qs := FillTable(n - 1);
      var locks := ts[n - 1];
      assert FindName(locks, ManyAs(n - 1), 0) == -1;
      hide Handle;
      AddLock(locks, n - 1);
      ss, rs := ts + [Handle(locks, MakeLock(n - 1)).0], qs + [MakeLock(n - 1)];
    }
  }

  lemma AddLock(locks: seq<ServerLock>, n: nat)
    requires |locks| == n < MAX_LOCK_COUNT && FindName(locks, ManyAs(n), 0) == -1
    ensures Handle(locks, MakeLock(n)).0 == locks + [NewLock(ManyAs(n))]
  {
  }

  /** From the start, the fifty-first lock is refused with two replies, of which the second goes to
      mailbox 0 of the client's machine. */
  lemma CreateReplyStrays() returns (ss: seq<seq<ServerLock>>, rs: seq<Request>)
    ensures ServerRun(ss, rs) && |rs| == MAX_LOCK_COUNT && |ss| == |rs| + 1
    ensures var r := MakeLock(MAX_LOCK_COUNT); var replies := Handle(ss[MAX_LOCK_COUNT], r).1;
            && GoodRequest(r) && |replies| == 2 && replies[0].to == r.who && replies[1].to == Client(1, 0)
            && !GoesRight(ss[MAX_LOCK_COUNT], r, replies[1])
  {
    ss, rs := FillTable(MAX_LOCK_COUNT);
    hide ServerRun, ShowInt;
  }

  // ---------- Names ----------

  /** No two locks that are not deleted have the same name, and there are at most fifty in all. */
  ghost predicate NamesOk(locks: seq<ServerLock>) {
    && |locks| <= MAX_LOCK_COUNT
    && forall i, j :: 0 <= i < j < |locks| && !locks[i].isDeleted && !locks[j].isDeleted ==> locks[i].name != locks[j].name
  }

  lemma HandleKeepsNames(locks: seq<ServerLock>, r: Request)
    requires NamesOk(locks)
    ensures NamesOk(Handle(locks, r).0)
  {
    hide Told, ReadWaiter, WaiterText, ShowInt;
  }

  lemma {:induction false} NamesStayDistinct(ss: seq<seq<ServerLock>>, rs: seq<Request>, n: nat)
    requires ServerRun(ss, rs) && |ss| == |rs| + 1 && n <= |rs|
    ensures NamesOk(ss[n])
  {
    if n > 0 {
      NamesStayDistinct(ss, rs, n - 1);
      HandleKeepsNames(ss[n - 1], rs[n - 1]);
    }
  }

  /** Create answers with the index of the one live lock of that name: the lock that was there, or
      else a new one, as long as there is room. */
  lemma CreateFindsTheLock(locks: seq<ServerLock>, r: Request, name: string, i: nat)
    requires NamesOk(locks) && |locks| < MAX_LOCK_COUNT && r.call == Create(name)
    requires ValidIndex(Handle(locks, r).0, i) && Handle(locks, r).0[i].name == name
    ensures Handle(locks, r).1 == [Answer(r.who, r.box, ShowInt(i))]
    ensures ValidIndex(locks, i) <==> Handle(locks, r).0 == locks
  {
    HandleKeepsNames(locks, r);
    hide ShowInt;
  }
}
