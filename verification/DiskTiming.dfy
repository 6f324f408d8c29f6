/** The timing of the simulated disk (machine/disk.cc): one head, tracks of 32 sectors, one sector
    under the head every RotationTime ticks, and a track buffer. */
module DiskTiming {
  const SectorsPerTrack: int := 32
  const NumTracks: int := 32
  const NumSectors: int := 1024
  const RotationTime: int := 500
  const SeekTime: int := 500
  const MaxLatency: int := 31999

  /** C's integer division, which truncates toward zero. */
  function DivTrunc(x: int, d: int): int
    requires d > 0
  {
    if x < 0 then -((-x) / d) else x / d
  }

  function Abs(x: int): int { if x < 0 then -x else x }

  function Track(sector: int): int { sector / SectorsPerTrack }

  predicate ValidSector(sector: int) { 0 <= sector < NumSectors }

  /** Where the head is in the rotation: at time t, a multiple of RotationTime, the sector with
      this offset on its track begins to pass. */
  function OffsetAt(t: int): int { (t / RotationTime) % SectorsPerTrack }

  function SeekTicks(lastSector: int, newSector: int): (seek: int)
    ensures seek % RotationTime == 0
    ensures ValidSector(lastSector) && ValidSector(newSector) ==> 0 <= seek <= 31 * SeekTime
    ensures seek == 0 <==> Track(lastSector) == Track(newSector)
  {
    Abs(Track(newSector) - Track(lastSector)) * SeekTime
  }

  /** Each track further away costs one SeekTime more, in either direction. */
  lemma SeekGrows(lastSector: int, newSector: int, further: int)
    requires Track(lastSector) <= Track(newSector) && Track(further) == Track(newSector) + 1
    ensures SeekTicks(lastSector, further) == SeekTicks(lastSector, newSector) + SeekTime
    ensures SeekTicks(further, lastSector) == SeekTicks(lastSector, further)
  {
  }

  /** TimeToSeek: the seek, and the wait for the next sector boundary after it. */
  function TimeToSeek(now: int, lastSector: int, newSector: int): (r: (int, int))
    requires 0 <= now && ValidSector(lastSector) && ValidSector(newSector)
    ensures 0 <= r.1 < RotationTime
    ensures (now + r.0 + r.1) % RotationTime == 0
  {
    var seek := SeekTicks(lastSector, newSector);
    var over := (now + seek) % RotationTime;
    (seek, if over > 0 then RotationTime - over else 0)
  }

  /** ModuloDiff: how many sectors pass before offset `to` comes round, seen from offset `from`. */
  function ModuloDiff(to: int, from: int): (d: int)
    requires 0 <= to && 0 <= from
    ensures 0 <= d < SectorsPerTrack
    ensures (from + d) % SectorsPerTrack == to % SectorsPerTrack
  {
    ((to % SectorsPerTrack - from % SectorsPerTrack) + SectorsPerTrack) % SectorsPerTrack
  }

  /** Whether the request is satisfied from the track buffer. */
  predicate Buffered(now: int, lastSector: int, bufferInit: int, newSector: int, writing: bool)
    requires 0 <= now && 0 <= bufferInit && ValidSector(lastSector) && ValidSector(newSector)
  {
    var (seek, rotation) := TimeToSeek(now, lastSector, newSector);
    var timeAfter := now + seek + rotation;
    !writing && seek == 0 && DivTrunc(timeAfter - bufferInit, RotationTime) > ModuloDiff(newSector, bufferInit / RotationTime)
  }

  function UnbufferedLatency(now: int, lastSector: int, newSector: int): (ticks: int)
    requires 0 <= now && ValidSector(lastSector) && ValidSector(newSector)
  {
    var (seek, rotation) := TimeToSeek(now, lastSector, newSector);
    var timeAfter := now + seek + rotation;
    seek + (rotation + ModuloDiff(newSector, timeAfter / RotationTime) * RotationTime) + RotationTime
  }

  /** ComputeLatency. */
  function ComputeLatency(now: int, lastSector: int, bufferInit: int, newSector: int, writing: bool): (ticks: int)
    requires 0 <= now && 0 <= bufferInit && ValidSector(lastSector) && ValidSector(newSector)
    ensures RotationTime <= ticks <= MaxLatency
    ensures ticks <= UnbufferedLatency(now, lastSector, newSector)
  {
    if Buffered(now, lastSector, bufferInit, newSector, writing) then
      RotationTime
    else
      UnbufferedLatency(now, lastSector, newSector)
  }

  /** During [s, s + RotationTime) the whole of the sector passes under a head on its track. */
  ghost predicate PassBegins(sector: int, s: int) {
    0 <= s && s % RotationTime == 0 && OffsetAt(s) == sector % SectorsPerTrack
  }

  /** The sector has passed completely between the two times. */
  ghost predicate PassedBetween(sector: int, start: int, end: int) {
    exists s :: PassBegins(sector, s) && start <= s && s + RotationTime <= end
  }

  /** Seen from a sector boundary, the next pass of a sector begins ModuloDiff sectors later. */
  lemma NextPass(sector: int, start: int, s: int)
    requires 0 <= sector && 0 <= start && start % RotationTime == 0
    requires PassBegins(sector, s) && start <= s
    ensures start + ModuloDiff(sector, start / RotationTime) * RotationTime <= s
  {
    var d := ModuloDiff(sector, start / RotationTime);
    var k := s / RotationTime - start / RotationTime;
    assert (start / RotationTime + k) % SectorsPerTrack == (start / RotationTime + d) % SectorsPerTrack;
    assert 0 <= k;
  }

  lemma NextPassBegins(sector: int, start: int)
    requires 0 <= sector && 0 <= start && start % RotationTime == 0
    ensures PassBegins(sector, start + ModuloDiff(sector, start / RotationTime) * RotationTime)
  {
    var d := ModuloDiff(sector, start / RotationTime);
    assert (start + d * RotationTime) / RotationTime == start / RotationTime + d;
  }

  /** A complete pass since the buffer began loading, counted in whole rotations. */
  lemma PassedIffCounted(sector: int, bufferInit: int, end: int)
    requires 0 <= sector && 0 <= bufferInit && bufferInit % RotationTime == 0
    ensures PassedBetween(sector, bufferInit, end) <==>
            DivTrunc(end - bufferInit, RotationTime) > ModuloDiff(sector, bufferInit / RotationTime)
  {
    var d := ModuloDiff(sector, bufferInit / RotationTime);
    NextPassBegins(sector, bufferInit);
    var s0 := bufferInit + d * RotationTime;
    if PassedBetween(sector, bufferInit, end) {
      var s :| PassBegins(sector, s) && bufferInit <= s && s + RotationTime <= end;
      NextPass(sector, bufferInit, s);
    }
    if DivTrunc(end - bufferInit, RotationTime) > d {
      assert PassBegins(sector, s0) && s0 + RotationTime <= end;
    }
  }

  /** The track buffer is used exactly for reads, on the track the head is on, of sectors that have
      passed completely between the time the buffer began loading and the next sector boundary. */
  lemma BufferedIff(now: int, lastSector: int, bufferInit: int, newSector: int, writing: bool)
    requires 0 <= now && 0 <= bufferInit && bufferInit % RotationTime == 0
    requires ValidSector(lastSector) && ValidSector(newSector)
    ensures Buffered(now, lastSector, bufferInit, newSector, writing) <==>
            && !writing && Track(lastSector) == Track(newSector)
            && PassedBetween(newSector, bufferInit, now + TimeToSeek(now, lastSector, newSector).1)
  {
    PassedIffCounted(newSector, bufferInit, now + TimeToSeek(now, lastSector, newSector).1);
  }

  /** What a request costs: one sector's transfer if it is a read, on the track the head is on, of a
      sector that passes completely between bufferInit and the next boundary, and otherwise the wait for
      the sector. */
  lemma LatencyCases(now: int, lastSector: int, bufferInit: int, newSector: int, writing: bool)
    requires 0 <= now && 0 <= bufferInit && bufferInit % RotationTime == 0
    requires ValidSector(lastSector) && ValidSector(newSector)
    ensures ComputeLatency(now, lastSector, bufferInit, newSector, writing) ==
            if !writing && Track(lastSector) == Track(newSector)
               && PassedBetween(newSector, bufferInit, now + TimeToSeek(now, lastSector, newSector).1)
            then RotationTime else UnbufferedLatency(now, lastSector, newSector)
  {
    BufferedIff(now, lastSector, bufferInit, newSector, writing);
  }

  /** The shortcut looks ahead to the boundary: it can be taken while the sector is still passing,
      so that when it is taken the sector had already passed by the time of the request only if
      the count in whole rotations says so at that time too. */
  lemma BufferedBeforeNow(now: int, lastSector: int, bufferInit: int, newSector: int)
    requires 0 <= now && 0 <= bufferInit && bufferInit % RotationTime == 0
    requires ValidSector(lastSector) && ValidSector(newSector)
    requires Buffered(now, lastSector, bufferInit, newSector, false)
    ensures PassedBetween(newSector, bufferInit, now) <==>
            DivTrunc(now - bufferInit, RotationTime) > ModuloDiff(newSector, bufferInit / RotationTime)
    ensures PassedBetween(newSector, bufferInit, now + RotationTime)
    ensures Buffered(1, 0, 0, 0, false) && !PassedBetween(0, 0, 1)
  {
    PassedIffCounted(newSector, bufferInit, now);
    BufferedIff(now, lastSector, bufferInit, newSector, false);
  }

  lemma NextBoundary(arrival: int, boundary: int, s: int)
    requires boundary % RotationTime == 0 && s % RotationTime == 0
    requires arrival <= s && boundary - arrival < RotationTime
    ensures boundary <= s
  {
    assert boundary == (boundary / RotationTime) * RotationTime;
  }

  /** A request not served from the buffer ends on a sector boundary, just as the sector has passed
      the head, and it is the first pass after the seek that it waits for. */
  lemma UnbufferedEndsAtSector(now: int, lastSector: int, newSector: int)
    requires 0 <= now && ValidSector(lastSector) && ValidSector(newSector)
    ensures var end := now + UnbufferedLatency(now, lastSector, newSector);
            var arrival := now + SeekTicks(lastSector, newSector);
            && PassBegins(newSector, end - RotationTime) && arrival <= end - RotationTime
            && forall s :: PassBegins(newSector, s) && arrival <= s ==> end <= s + RotationTime
  {
    var (seek, rotation) := TimeToSeek(now, lastSector, newSector);
    var timeAfter := now + seek + rotation;
    var d := ModuloDiff(newSector, timeAfter / RotationTime);
    NextPassBegins(newSector, timeAfter);
    forall s | PassBegins(newSector, s) && now + seek <= s
      ensures timeAfter + d * RotationTime <= s
    {
      NextBoundary(now + seek, timeAfter, s);
      NextPass(newSector, timeAfter, s);
    }
  }

  /** The disk's own state, and the time the request in progress completes. */
  datatype Head = Head(lastSector: int, bufferInit: int, doneAt: int)

  datatype Request = Request(at: int, sector: int, writing: bool)

  const InitialHead := Head(0, 0, 0)

  /** A request may come once the one before it has completed: the disk is then not active. */
  predicate CanServe(h: Head, r: Request) {
    ValidSector(r.sector) && h.doneAt <= r.at
  }

  ghost predicate HeadInv(h: Head) {
    && ValidSector(h.lastSector) && 0 <= h.bufferInit <= h.doneAt
    && h.bufferInit % RotationTime == 0
  }

  /** ReadRequest or WriteRequest: the latency, then UpdateLast. */
  function Serve(h: Head, r: Request): (h': Head)
    requires HeadInv(h) && CanServe(h, r)
    ensures HeadInv(h')
    ensures r.at + RotationTime <= h'.doneAt <= r.at + MaxLatency
  {
    var (seek, rotate) := TimeToSeek(r.at, h.lastSector, r.sector);
    Head(r.sector,
         if seek != 0 then r.at + seek + rotate else h.bufferInit,
         r.at + ComputeLatency(r.at, h.lastSector, h.bufferInit, r.sector, r.writing))
  }

  /** Requests that keep the disk's rule of one at a time. */
  ghost predicate Legal(rs: seq<Request>)
    decreases rs, 0
  {
    rs == [] || (Legal(rs[..|rs| - 1]) && CanServe(After(rs[..|rs| - 1]), rs[|rs| - 1]))
  }

  ghost function After(rs: seq<Request>): (h: Head)
    requires Legal(rs)
    ensures HeadInv(h)
    decreases rs, 1
  {
    if rs == [] then InitialHead else Serve(After(rs[..|rs| - 1]), rs[|rs| - 1])
  }

  /** The head arrived on the track it is on with request m - 1 (m == 0: it started there) and has
      not left it since; the first sector boundary after the arrival is `boundary`. */
  ghost predicate ArrivedWith(rs: seq<Request>, m: nat, boundary: int)
    requires Legal(rs)
  {
    && m <= |rs|
    && (forall j :: m <= j < |rs| ==> Track(rs[j].sector) == Track(After(rs).lastSector))
    && if m == 0 then
         boundary == 0 && Track(After(rs).lastSector) == Track(InitialHead.lastSector)
       else
         && Legal(rs[..m - 1])
         && Track(rs[m - 1].sector) == Track(After(rs).lastSector)
         && Track(After(rs[..m - 1]).lastSector) != Track(rs[m - 1].sector)
         && var arrival := rs[m - 1].at + SeekTicks(After(rs[..m - 1]).lastSector, rs[m - 1].sector);
            boundary % RotationTime == 0 && arrival <= boundary < arrival + RotationTime
  }

  /** Over every run of requests, bufferInit is the first sector boundary after the head came to
      its present track. */
  lemma {:induction false} BufferInitMeaning(rs: seq<Request>) returns (m: nat)
    requires Legal(rs)
    ensures ArrivedWith(rs, m, After(rs).bufferInit)
  {
    if rs == [] {
      m := 0;
    } else {
      var before := rs[..|rs| - 1];
      var r := rs[|rs| - 1];
      var k := BufferInitMeaning(before);
      if SeekTicks(After(before).lastSector, r.sector) != 0 {
        m := |rs|;
      } else {
        m := k;
        assert m > 0 ==> rs[..m - 1] == before[..m - 1];
      }
    }
  }

  /** Over every run of requests: a request served from the buffer reads a sector that passed
      completely, under a head that had come to its track and not left it, before the request
      completes. */
  lemma ShortcutIsSound(rs: seq<Request>, r: Request) returns (m: nat, arrived: int)
    requires Legal(rs) && CanServe(After(rs), r)
    requires Buffered(r.at, After(rs).lastSector, After(rs).bufferInit, r.sector, r.writing)
    ensures ArrivedWith(rs, m, arrived) && Track(r.sector) == Track(After(rs).lastSector)
    ensures PassedBetween(r.sector, arrived, Serve(After(rs), r).doneAt)
  {
    var h := After(rs);
    m := BufferInitMeaning(rs);
    arrived := h.bufferInit;
    BufferedIff(r.at, h.lastSector, h.bufferInit, r.sector, r.writing);
  }

  /** The disk device: the active flag keeps requests one at a time. */
  class Disk {
    var active: bool
    var lastSector: int
    var bufferInit: int
    ghost var doneAt: int      // when the completion interrupt of the last request is due

    ghost predicate Valid()
      reads this
    {
      HeadInv(Head(lastSector, bufferInit, doneAt))
    }

    constructor ()
      ensures Valid() && !active && Head(lastSector, bufferInit, doneAt) == InitialHead
    {
      active, lastSector, bufferInit, doneAt := false, 0, 0, 0;
    }

    /** ReadRequest (writing == false) or WriteRequest: returns the delay after which the completion
        interrupt is scheduled. */
    method Start(now: int, sectorNumber: int, writing: bool) returns (ticks: int)
      requires Valid() && !active && doneAt <= now && ValidSector(sectorNumber)
      modifies this
      ensures Valid() && active && doneAt == now + ticks && 0 < ticks
      ensures Head(lastSector, bufferInit, doneAt) == Serve(old(Head(lastSector, bufferInit, doneAt)), Request(now, sectorNumber, writing))
    {
      ticks := ComputeLatency(now, lastSector, bufferInit, sectorNumber, writing);
      active := true;
      UpdateLast(now, sectorNumber);
      doneAt := now + ticks;
    }

    method UpdateLast(now: int, newSector: int)
      requires 0 <= now && ValidSector(lastSector) && ValidSector(newSector)
      modifies `bufferInit, `lastSector
      ensures lastSector == newSector
      ensures bufferInit == if Track(old(lastSector)) == Track(newSector) then old(bufferInit)
                            else now + TimeToSeek(now, old(lastSector), newSector).0 + TimeToSeek(now, old(lastSector), newSector).1
    {
      var (seek, rotate) := TimeToSeek(now, lastSector, newSector);
      if seek != 0 {
        bufferInit := now + seek + rotate;
      }
      lastSector := newSector;
    }

    /** The completion interrupt. */
    method CallBack()
      requires Valid()
      modifies `active
      ensures Valid() && !active
    {
      active := false;
    }
  }
}
