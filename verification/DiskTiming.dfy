/** How long the simulated disk takes (machine/disk.cc): seeking, rotation and the track buffer.
    Time is in ticks and does not overflow. */
module DiskTiming {
  import opened Bytes
  import opened FileLayout

  const SECTORS_PER_TRACK := 32
  const SEEK_TIME := 500
  const ROTATION_TIME := 500

  predicate IsSector(s: int) {
    0 <= s < NUM_SECTORS
  }

  function Track(s: nat): nat {
    s / SECTORS_PER_TRACK
  }

  function Distance(a: int, b: int): nat {
    if a < b then b - a else a - b
  }

  /** The seek, and the time from its end to the next sector boundary. */
  function TimeToSeek(lastSector: nat, newSector: nat, now: nat): (r: (nat, nat)) {
    var seek := Distance(Track(newSector), Track(lastSector)) * SEEK_TIME;
    var over := (now + seek) % ROTATION_TIME;
    (seek, if over > 0 then ROTATION_TIME - over else 0)
  }

  /** Sectors from position `start` to position `end`, going round the track. */
  function ModuloDiff(end: nat, start: nat): nat {
    (end % SECTORS_PER_TRACK - start % SECTORS_PER_TRACK + SECTORS_PER_TRACK) % SECTORS_PER_TRACK
  }

  function TimeAfter(lastSector: nat, newSector: nat, now: nat): nat {
    var (seek, rotation) := TimeToSeek(lastSector, newSector, now);
    now + seek + rotation
  }

  /** Whether a request is served from the track buffer. */
  predicate BufferHit(lastSector: nat, bufferInit: nat, newSector: nat, writing: bool, now: nat) {
    && !writing && TimeToSeek(lastSector, newSector, now).0 == 0
    && (TimeAfter(lastSector, newSector, now) - bufferInit) / ROTATION_TIME > ModuloDiff(newSector, bufferInit / ROTATION_TIME)
  }

  function Latency(lastSector: nat, bufferInit: nat, newSector: nat, writing: bool, now: nat): nat {
    if BufferHit(lastSector, bufferInit, newSector, writing, now) then ROTATION_TIME
    else
      var (seek, rotation) := TimeToSeek(lastSector, newSector, now);
      seek + rotation + ModuloDiff(newSector, TimeAfter(lastSector, newSector, now) / ROTATION_TIME) * ROTATION_TIME + ROTATION_TIME
  }

  // ---------- The turning disk ----------

  /** The head is at the start of sector `s` of its track at time `t`. */
  predicate StartsAt(s: nat, t: nat) {
    t % ROTATION_TIME == 0 && t / ROTATION_TIME % SECTORS_PER_TRACK == s % SECTORS_PER_TRACK
  }

  /** Sector `s` passes the head from its start to its end between the two times. */
  ghost predicate Passes(s: nat, start: nat, end: nat) {
    exists t: nat :: start <= t && t + ROTATION_TIME <= end && StartsAt(s, t)
  }

  lemma Boundaries(m: nat)
    ensures m * ROTATION_TIME % ROTATION_TIME == 0 && m * ROTATION_TIME / ROTATION_TIME == m
  {
  }

  /** The first time from the sector boundary `b` on at which sector `s` starts. */
  lemma NextStart(s: nat, b: nat)
    requires b % ROTATION_TIME == 0
    ensures var first := b + ModuloDiff(s, b / ROTATION_TIME) * ROTATION_TIME;
            StartsAt(s, first) && forall t: nat :: b <= t < first ==> !StartsAt(s, t)
  {
    var q := b / ROTATION_TIME;
    var n := ModuloDiff(s, q);
    var first := b + n * ROTATION_TIME;
    assert first == (q + n) * ROTATION_TIME;
    RoundTheTrack(s, q);
    Boundaries(q + n);
    hide ModuloDiff;
    forall t: nat | b <= t < first
      ensures !StartsAt(s, t)
    {
      if StartsAt(s, t) {
        var m := t / ROTATION_TIME;
        assert t == m * ROTATION_TIME && q <= m < q + n;
        NoneSooner(s, q, m - q);
      }
    }
  }

  lemma RoundTheTrack(s: nat, q: nat)
    ensures (q + ModuloDiff(s, q)) % SECTORS_PER_TRACK == s % SECTORS_PER_TRACK
  {
  }

  lemma NoneSooner(s: nat, q: nat, j: nat)
    requires j < ModuloDiff(s, q)
    ensures (q + j) % SECTORS_PER_TRACK != s % SECTORS_PER_TRACK
  {
  }

  lemma TimeAfterIsBoundary(lastSector: nat, newSector: nat, now: nat)
    ensures var (seek, rotation) := TimeToSeek(lastSector, newSector, now);
            var after := TimeAfter(lastSector, newSector, now);
            && after % ROTATION_TIME == 0 && rotation < ROTATION_TIME
            && forall t: nat :: now + seek <= t < after ==> t % ROTATION_TIME != 0
  {
  }

  /** Without the buffer, a request ends when its sector has passed the head for the first time after
      the seek. */
  lemma EndsWhenSectorHasPassed(lastSector: nat, bufferInit: nat, newSector: nat, writing: bool, now: nat)
    requires !BufferHit(lastSector, bufferInit, newSector, writing, now)
    ensures var end := now + Latency(lastSector, bufferInit, newSector, writing, now);
            var arrived := now + TimeToSeek(lastSector, newSector, now).0;
            && Passes(newSector, arrived, end)
            && forall sooner: nat :: sooner < end ==> !Passes(newSector, arrived, sooner)
  {
    var arrived := now + TimeToSeek(lastSector, newSector, now).0;
    var end := now + Latency(lastSector, bufferInit, newSector, writing, now);
    TimeAfterIsBoundary(lastSector, newSector, now);
    NextStart(newSector, TimeAfter(lastSector, newSector, now));
    assert StartsAt(newSector, end - ROTATION_TIME);
    forall sooner: nat | sooner < end
      ensures !Passes(newSector, arrived, sooner)
    {
    }
  }

  /** The buffer serves a read exactly when the head is on the track already and the sector has gone
      by since the buffer began to fill, counting up to the next sector boundary. */
  lemma HitIffPassedSinceLoading(lastSector: nat, bufferInit: nat, newSector: nat, writing: bool, now: nat)
    requires bufferInit % ROTATION_TIME == 0 && bufferInit <= now
    ensures BufferHit(lastSector, bufferInit, newSector, writing, now) <==>
              !writing && Track(newSector) == Track(lastSector)
              && Passes(newSector, bufferInit, TimeAfter(lastSector, newSector, now))
  {
    var after := TimeAfter(lastSector, newSector, now);
    TimeAfterIsBoundary(lastSector, newSector, now);
    NextStart(newSector, bufferInit);
    var n := ModuloDiff(newSector, bufferInit / ROTATION_TIME);
    var first := bufferInit + n * ROTATION_TIME;
    if TimeToSeek(lastSector, newSector, now).0 == 0 {
      assert (after - bufferInit) / ROTATION_TIME > n <==> first + ROTATION_TIME <= after;
      if first + ROTATION_TIME <= after {
        assert Passes(newSector, bufferInit, after);
      }
    }
  }

  lemma LatencyBounds(lastSector: nat, bufferInit: nat, newSector: nat, writing: bool, now: nat)
    requires IsSector(lastSector) && IsSector(newSector)
    ensures 500 <= Latency(lastSector, bufferInit, newSector, writing, now) <= 31999
  {
  }

  // ---------- Serialised requests ----------

  /** `doneAt` is when the latest request completes. */
  datatype Timing = Timing(lastSector: nat, bufferInit: nat, doneAt: nat)

  datatype Request = Request(sector: nat, writing: bool, now: nat)

  const NEW_DISK := Timing(0, 0, 0)

  predicate Serves(s: Timing, r: Request) {
    IsSector(r.sector) && s.doneAt <= r.now
  }

  /** What a request, and UpdateLast in it, leave. */
  function AfterRequest(s: Timing, r: Request): Timing {
    Timing(r.sector,
           if TimeToSeek(s.lastSector, r.sector, r.now).0 != 0 then TimeAfter(s.lastSector, r.sector, r.now) else s.bufferInit,
           r.now + Latency(s.lastSector, s.bufferInit, r.sector, r.writing, r.now))
  }

  /** The buffer began to fill at a sector boundary, before the latest request was done. */
  predicate TimingInv(s: Timing) {
    IsSector(s.lastSector) && s.bufferInit % ROTATION_TIME == 0 && s.bufferInit <= s.doneAt
  }

  lemma RequestKeepsInv(s: Timing, r: Request)
    requires TimingInv(s) && Serves(s, r)
    ensures TimingInv(AfterRequest(s, r))
  {
    TimeAfterIsBoundary(s.lastSector, r.sector, r.now);
  }

  /** The requests are made one at a time, each after the one before is done. */
  ghost predicate Serialised(ss: seq<Timing>, rs: seq<Request>) {
    && |ss| == |rs| + 1 && ss[0] == NEW_DISK
    && forall i :: 0 <= i < |rs| ==> Serves(ss[i], rs[i]) && ss[i + 1] == AfterRequest(ss[i], rs[i])
  }

  lemma {:induction false} SerialisedInv(ss: seq<Timing>, rs: seq<Request>, n: nat)
    requires Serialised(ss, rs) && n < |ss|
    ensures TimingInv(ss[n])
  {
    if n > 0 {
      SerialisedInv(ss, rs, n - 1);
      RequestKeepsInv(ss[n - 1], rs[n - 1]);
    }
  }

  /** Where the head is before request `n`: on the track of the request before it, or on track 0. */
  function HeadTrack(rs: seq<Request>, n: nat): nat
    requires n <= |rs|
  {
    if n == 0 then 0 else rs[n - 1].sector / 32
  }

  /** When the head is on its track for request `n`: 500 ticks for each track crossed. */
  function Arrival(rs: seq<Request>, n: nat): nat
    requires n < |rs|
  {
    var from, to := HeadTrack(rs, n), rs[n].sector / 32;
    rs[n].now + 500 * if from < to then to - from else from - to
  }

  /** The sector boundary at or after a time. */
  function Boundary(t: nat): nat {
    (t + 499) / 500 * 500
  }

  /** When the track buffer began to fill, before request `n`: at the boundary after the latest request
      to another track arrived there. */
  function FilledFrom(rs: seq<Request>, n: nat): nat
    requires n <= |rs|
  {
    if n == 0 then 0
    else if rs[n - 1].sector / 32 != HeadTrack(rs, n - 1) then Boundary(Arrival(rs, n - 1))
    else FilledFrom(rs, n - 1)
  }

  lemma SeekIsArrival(lastSector: nat, r: Request, arrival: nat)
    requires var from, to := lastSector / 32, r.sector / 32; arrival == r.now + 500 * if from < to then to - from else from - to
    ensures r.now + TimeToSeek(lastSector, r.sector, r.now).0 == arrival
    ensures TimeAfter(lastSector, r.sector, r.now) == Boundary(arrival)
    ensures TimeToSeek(lastSector, r.sector, r.now).0 == 0 <==> r.sector / 32 == lastSector / 32
  {
  }

  /** The device's state, told from the requests. */
  lemma {:induction false} StateFromRequests(ss: seq<Timing>, rs: seq<Request>, n: nat)
    requires Serialised(ss, rs) && n <= |rs| < |ss|
    ensures ss[n].lastSector / 32 == HeadTrack(rs, n) && ss[n].bufferInit == FilledFrom(rs, n)
  {
    if n > 0 {
      StateFromRequests(ss, rs, n - 1);
      SeekIsArrival(ss[n - 1].lastSector, rs[n - 1], Arrival(rs, n - 1));
      hide TimeToSeek, TimeAfter, Boundary, Latency;
    }
  }

  /** Over any run of serialised requests, and told from the requests alone: each takes between 500 and
      31999 ticks; the buffer serves a read, in 500 ticks, exactly when the head is on the track and the
      sector has gone by since the buffer began to fill, counting up to the next sector boundary; and
      any other request ends at the first moment at which its sector has passed after the head arrived. */
  lemma EveryRequestIsTimed(ss: seq<Timing>, rs: seq<Request>, n: nat)
    requires Serialised(ss, rs) && n < |rs| < |ss|
    ensures var r := rs[n]; var end := ss[n + 1].doneAt;
            && 500 <= end - r.now <= 31999
            && FilledFrom(rs, n) % 500 == 0 && FilledFrom(rs, n) <= r.now
            && (if !r.writing && r.sector / 32 == HeadTrack(rs, n) && Passes(r.sector, FilledFrom(rs, n), Boundary(r.now)) then
                  end == r.now + 500
                else
                  && Passes(r.sector, Arrival(rs, n), end)
                  && forall sooner: nat :: sooner < end ==> !Passes(r.sector, Arrival(rs, n), sooner))
  {
    SerialisedInv(ss, rs, n);
    StateFromRequests(ss, rs, n);
    var s, r := ss[n], rs[n];
    assert Serves(s, r) && ss[n + 1] == AfterRequest(s, r);
    SeekIsArrival(s.lastSector, r, Arrival(rs, n));
    hide Serialised, Passes, TimeToSeek, TimeAfter, Boundary, Latency, BufferHit, HeadTrack, Arrival, FilledFrom;
    RequestIsTimed(s, r);
  }

  lemma RequestIsTimed(s: Timing, r: Request)
    requires TimingInv(s) && Serves(s, r)
    ensures var end := AfterRequest(s, r).doneAt; var arrived := r.now + TimeToSeek(s.lastSector, r.sector, r.now).0;
            && 500 <= end - r.now <= 31999
            && (if !r.writing && TimeToSeek(s.lastSector, r.sector, r.now).0 == 0
                   && Passes(r.sector, s.bufferInit, TimeAfter(s.lastSector, r.sector, r.now)) then
                  end == r.now + 500
                else
                  && Passes(r.sector, arrived, end)
                  && forall sooner: nat :: sooner < end ==> !Passes(r.sector, arrived, sooner))
  {
    LatencyBounds(s.lastSector, s.bufferInit, r.sector, r.writing, r.now);
    HitIffPassedSinceLoading(s.lastSector, s.bufferInit, r.sector, r.writing, r.now);
    hide Passes;
    if !BufferHit(s.lastSector, s.bufferInit, r.sector, r.writing, r.now) {
      EndsWhenSectorHasPassed(s.lastSector, s.bufferInit, r.sector, r.writing, r.now);
    }
  }

  // ---------- The device ----------

  class Disk {
    const sectors: array<seq<byte>>
    var lastSector: nat
    var bufferInit: nat
    var active: bool
    ghost var doneAt: nat

    ghost function State(): Timing
      reads this
    {
      Timing(lastSector, bufferInit, doneAt)
    }

    ghost predicate Valid()
      reads this, sectors
    {
      IsDisk(sectors[..]) && TimingInv(State())
    }

    constructor (sectors: array<seq<byte>>)
      requires IsDisk(sectors[..])
      ensures Valid() && this.sectors == sectors && State() == NEW_DISK && !active
    {
      this.sectors := sectors;
      lastSector, bufferInit, active, doneAt := 0, 0, false, 0;
    }

    method ComputeLatency(newSector: nat, writing: bool, now: nat) returns (ticks: nat)
      requires Valid() && IsSector(newSector) && bufferInit <= now
      ensures ticks == Latency(lastSector, bufferInit, newSector, writing, now)
    {
      var (seek, rotation) := TimeToSeek(lastSector, newSector, now);
      var timeAfter := now + seek + rotation;
      if !writing && seek == 0
        && (timeAfter - bufferInit) / ROTATION_TIME > ModuloDiff(newSector, bufferInit / ROTATION_TIME) {
        return ROTATION_TIME;
      }
      rotation := rotation + ModuloDiff(newSector, timeAfter / ROTATION_TIME) * ROTATION_TIME;
      return seek + rotation + ROTATION_TIME;
    }

    method UpdateLast(newSector: nat, now: nat)
      modifies this`lastSector, this`bufferInit
      ensures lastSector == newSector
      ensures bufferInit == if TimeToSeek(old(lastSector), newSector, now).0 != 0 then TimeAfter(old(lastSector), newSector, now)
                            else old(bufferInit)
    {
      var (seek, rotate) := TimeToSeek(lastSector, newSector, now);
      if seek != 0 {
        bufferInit := now + seek + rotate;
      }
      lastSector := newSector;
    }

    /** The data is moved at once; the interrupt is due in `ticks`. */
    method ReadRequest(sectorNumber: nat, now: nat) returns (data: seq<byte>, ticks: nat)
      requires Valid() && !active && Serves(State(), Request(sectorNumber, false, now))
      modifies this
      ensures Valid() && active && State() == AfterRequest(old(State()), Request(sectorNumber, false, now))
      ensures data == sectors[sectorNumber] && now + ticks == doneAt
    {
      RequestKeepsInv(State(), Request(sectorNumber, false, now));
      ticks := ComputeLatency(sectorNumber, false, now);
      data := sectors[sectorNumber];
      active := true;
      UpdateLast(sectorNumber, now);
      doneAt := now + ticks;
    }

    method WriteRequest(sectorNumber: nat, data: seq<byte>, now: nat) returns (ticks: nat)
      requires Valid() && !active && Serves(State(), Request(sectorNumber, true, now)) && |data| == SECTOR_SIZE
      modifies this, sectors
      ensures Valid() && active && State() == AfterRequest(old(State()), Request(sectorNumber, true, now))
      ensures sectors[..] == old(sectors[..])[sectorNumber := data] && now + ticks == doneAt
    {
      RequestKeepsInv(State(), Request(sectorNumber, true, now));
      ticks := ComputeLatency(sectorNumber, true, now);
      sectors[sectorNumber] := data;
      active := true;
      UpdateLast(sectorNumber, now);
      doneAt := now + ticks;
    }

    method HandleInterrupt()
      modifies this`active
      ensures !active
    {
      active := false;
    }
  }
}
