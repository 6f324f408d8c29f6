/** The pending list of the interrupt simulator (machine/interrupt.cc), on sequences. */
module PendingSpec {
  import opened ListSpec

  const UserTick: int := 1
  const SystemTick: int := 10

  datatype IntType = TimerInt | DiskInt | ConsoleWriteInt | ConsoleReadInt | NetworkSendInt | NetworkRecvInt

  /** A scheduled interrupt. `serial` is the identity of the PendingInterrupt object, numbered in
      the order in which Schedule allocates them. */
  datatype PendingInterrupt = PendingInterrupt(callee: nat, when: int, kind: IntType, serial: nat)

  function PendingCompare(x: PendingInterrupt, y: PendingInterrupt): int {
    if x.when < y.when then -1 else if x.when > y.when then 1 else 0
  }

  /** x is due before y, or at the same time and was scheduled first. */
  ghost predicate Before(x: PendingInterrupt, y: PendingInterrupt) {
    x.when < y.when || (x.when == y.when && x.serial < y.serial)
  }

  ghost predicate Ordered(s: seq<PendingInterrupt>) {
    forall i, j :: 0 <= i < j < |s| ==> Before(s[i], s[j])
  }

  ghost predicate OlderThan(s: seq<PendingInterrupt>, serial: nat) {
    forall i :: 0 <= i < |s| ==> s[i].serial < serial
  }

  /** How many entries are already due. */
  ghost function DueCount(s: seq<PendingInterrupt>, now: int): nat {
    if s == [] then 0 else (if s[0].when <= now then 1 else 0) + DueCount(s[1..], now)
  }

  ghost predicate AllAfter(s: seq<PendingInterrupt>, t: int) {
    forall i :: 0 <= i < |s| ==> s[i].when > t
  }

  lemma InsertedAt(s: seq<PendingInterrupt>, x: PendingInterrupt, k: nat, i: nat)
    requires k <= |s| && i <= |s|
    ensures (s[..k] + [x] + s[k..])[i] == if i < k then s[i] else if i == k then x else s[i - 1]
  {
  }

  lemma InsertedBefore(s: seq<PendingInterrupt>, x: PendingInterrupt, k: nat, i: nat, j: nat)
    requires Ordered(s) && OlderThan(s, x.serial) && IsInsertPoint(s, x, PendingCompare, k) && i < j <= |s|
    ensures Before((s[..k] + [x] + s[k..])[i], (s[..k] + [x] + s[k..])[j])
  {
    InsertedAt(s, x, k, i);
    InsertedAt(s, x, k, j);
    if i == k {
      assert k < j - 1 ==> Before(s[k], s[j - 1]);
    } else if j == k {
      assert PendingCompare(x, s[i]) >= 0;
    }
  }

  /** Scheduling keeps the list in firing order, ties broken by age. */
  lemma InsertOrdered(s: seq<PendingInterrupt>, x: PendingInterrupt)
    requires Ordered(s) && OlderThan(s, x.serial)
    ensures Ordered(InsertSorted(s, x, PendingCompare))
    ensures OlderThan(InsertSorted(s, x, PendingCompare), x.serial + 1)
  {
    hide InsertSorted, InsertPoint, Before;
    var k := InsertPoint(s, x, PendingCompare);
    InsertSplits(s, x, PendingCompare, k);
    var r := InsertSorted(s, x, PendingCompare);
    forall i: nat, j: nat | i < j < |r| ensures Before(r[i], r[j]) { InsertedBefore(s, x, k, i, j); }
    forall i: nat | i < |r| ensures r[i].serial < x.serial + 1 { InsertedAt(s, x, k, i); }
  }

  /** An interrupt scheduled for the future does not add to what is due now, and leaves the same
      entries after any moment it is itself after. */
  lemma {:induction false} InsertNotDue(s: seq<PendingInterrupt>, x: PendingInterrupt, now: int)
    requires x.when > now
    ensures DueCount(InsertSorted(s, x, PendingCompare), now) == DueCount(s, now)
  {
    var r := InsertSorted(s, x, PendingCompare);
    if s == [] || PendingCompare(x, s[0]) < 0 {
      assert r[1..] == s;
    } else {
      InsertNotDue(s[1..], x, now);
      assert r[1..] == InsertSorted(s[1..], x, PendingCompare);
    }
  }

  lemma InsertAfter(s: seq<PendingInterrupt>, x: PendingInterrupt, t: int)
    requires x.when > t && AllAfter(s, t)
    ensures AllAfter(InsertSorted(s, x, PendingCompare), t)
  {
    InsertSplits(s, x, PendingCompare, InsertPoint(s, x, PendingCompare));
  }

  /** What holds of a run's history at every moment: interrupts fire in order of due time, ties in
      scheduling order, ahead of everything pending; each fires at or after its due time and less
      than one system tick late; and every interrupt scheduled is pending or has fired, once. */
  ghost predicate History(scheduled: seq<PendingInterrupt>, pending: seq<PendingInterrupt>,
                          fired: seq<PendingInterrupt>, firedAt: seq<int>, now: int)
  {
    && Ordered(fired + pending)
    && (forall i :: 0 <= i < |scheduled| ==> scheduled[i].serial == i)
    && OlderThan(pending, |scheduled|)
    && multiset(scheduled) == multiset(pending) + multiset(fired)
    && OnTime(fired, firedAt, now)
  }

  ghost predicate OnTime(fired: seq<PendingInterrupt>, firedAt: seq<int>, now: int) {
    && |firedAt| == |fired|
    && forall i :: 0 <= i < |fired| ==> fired[i].when <= firedAt[i] <= now && firedAt[i] - fired[i].when < SystemTick
  }

  lemma OrderedParts(a: seq<PendingInterrupt>, b: seq<PendingInterrupt>)
    requires Ordered(a + b)
    ensures Ordered(a) && Ordered(b)
    ensures forall i, j :: 0 <= i < |a| && 0 <= j < |b| ==> Before(a[i], b[j])
  {
    hide Before;
    var s := a + b;
    assert forall i :: 0 <= i < |a| ==> s[i] == a[i];
    assert forall j :: 0 <= j < |b| ==> s[|a| + j] == b[j];
    forall i, j | 0 <= i < j < |b| ensures Before(b[i], b[j]) { assert Before(s[|a| + i], s[|a| + j]); }
    forall i, j | 0 <= i < |a| && 0 <= j < |b| ensures Before(a[i], b[j]) { assert Before(s[i], s[|a| + j]); }
  }

  lemma BeforeInserted(f: PendingInterrupt, pending: seq<PendingInterrupt>, x: PendingInterrupt, j: nat)
    requires Before(f, x) && j <= |pending| && forall k :: 0 <= k < |pending| ==> Before(f, pending[k])
    ensures Before(f, InsertSorted(pending, x, PendingCompare)[j])
  {
    hide InsertSorted, InsertPoint, Before;
    var k := InsertPoint(pending, x, PendingCompare);
    InsertSplits(pending, x, PendingCompare, k);
    InsertedAt(pending, x, k, j);
  }

  /** What has fired was due before anything scheduled since. */
  lemma FiredBeforeInserted(fired: seq<PendingInterrupt>, pending: seq<PendingInterrupt>, x: PendingInterrupt)
    requires Ordered(fired + pending) && forall i :: 0 <= i < |fired| ==> fired[i].when < x.when
    ensures forall i, j :: 0 <= i < |fired| && 0 <= j <= |pending| ==> Before(fired[i], InsertSorted(pending, x, PendingCompare)[j])
  {
    hide InsertSorted, Ordered;
    OrderedParts(fired, pending);
    forall i, j: nat | 0 <= i < |fired| && j <= |pending|
      ensures Before(fired[i], InsertSorted(pending, x, PendingCompare)[j])
    {
      BeforeInserted(fired[i], pending, x, j);
    }
  }

  lemma ScheduleKeepsHistory(scheduled: seq<PendingInterrupt>, pending: seq<PendingInterrupt>,
                             fired: seq<PendingInterrupt>, firedAt: seq<int>, now: int, x: PendingInterrupt)
    requires History(scheduled, pending, fired, firedAt, now)
    requires x.when > now && x.serial == |scheduled|
    ensures History(scheduled + [x], InsertSorted(pending, x, PendingCompare), fired, firedAt, now)
  {
    hide InsertSorted, Ordered, Before;
    OrderedParts(fired, pending);
    InsertOrdered(pending, x);
    InsertAddsOne(pending, x, PendingCompare);
    FiredBeforeInserted(fired, pending, x);
    OrderedConcat(fired, InsertSorted(pending, x, PendingCompare));
  }

  lemma OrderedConcat(a: seq<PendingInterrupt>, b: seq<PendingInterrupt>)
    requires Ordered(a) && Ordered(b)
    requires forall i, j :: 0 <= i < |a| && 0 <= j < |b| ==> Before(a[i], b[j])
    ensures Ordered(a + b)
  {
  }

  lemma FireKeepsHistory(scheduled: seq<PendingInterrupt>, pending: seq<PendingInterrupt>,
                         fired: seq<PendingInterrupt>, firedAt: seq<int>, now: int)
    requires History(scheduled, pending, fired, firedAt, now) && pending != []
    requires now - SystemTick < pending[0].when <= now
    ensures History(scheduled, pending[1..], fired + [pending[0]], firedAt + [now], now)
  {
    assert pending == [pending[0]] + pending[1..];
    assert (fired + [pending[0]]) + pending[1..] == fired + pending;
  }

  lemma LaterKeepsHistory(scheduled: seq<PendingInterrupt>, pending: seq<PendingInterrupt>,
                          fired: seq<PendingInterrupt>, firedAt: seq<int>, now: int, later: int)
    requires History(scheduled, pending, fired, firedAt, now) && now <= later
    ensures History(scheduled, pending, fired, firedAt, later)
  {
  }

  /** In firing order, nothing lies before the front. */
  lemma FrontDecides(fired: seq<PendingInterrupt>, s: seq<PendingInterrupt>, t: int)
    requires Ordered(fired + s)
    ensures s == [] || s[0].when > t ==> AllAfter(s, t)
  {
    forall i | 0 < i < |s|
      ensures s[0].when <= s[i].when
    {
      assert Before((fired + s)[|fired|], (fired + s)[|fired| + i]);
    }
  }
}

/** Simulated time and hardware interrupts. What a handler does is arbitrary, within what handlers
    may do: schedule further interrupts and ask for a yield, interrupts staying off. */
module InterruptSimulator {
  import opened ListSpec
  import opened PendingSpec

  datatype IntStatus = IntOff | IntOn
  datatype MachineStatus = IdleMode | SystemMode | UserMode

  function TickLength(status: MachineStatus): int { if status == SystemMode then SystemTick else UserTick }

  class Interrupt {
    var level: IntStatus
    var pending: seq<PendingInterrupt>
    var inHandler: bool
    var yieldOnReturn: bool
    var status: MachineStatus
    // the Statistics object
    var totalTicks: int
    var idleTicks: int
    var systemTicks: int
    var userTicks: int
    // the next serial number, and the history of the run
    var nextSerial: nat
    ghost var scheduled: seq<PendingInterrupt>
    ghost var fired: seq<PendingInterrupt>
    ghost var firedAt: seq<int>
    ghost var yieldsAsked: nat

    /** Holds at every moment of a run, inside handlers too. */
    ghost predicate Consistent()
      reads this
    {
      && totalTicks == idleTicks + systemTicks + userTicks
      && (inHandler ==> level == IntOff)
      && nextSerial == |scheduled|
      && History(scheduled, pending, fired, firedAt, totalTicks)
    }

    /** Between operations no handler is running and everything pending lies strictly ahead. */
    ghost predicate Valid()
      reads this
    {
      Consistent() && !inHandler && AllAfter(pending, totalTicks)
    }

    constructor ()
      ensures Valid() && level == IntOff && status == SystemMode && totalTicks == 0
    {
      level, status, pending, inHandler, yieldOnReturn := IntOff, SystemMode, [], false, false;
      totalTicks, idleTicks, systemTicks, userTicks, nextSerial := 0, 0, 0, 0, 0;
      scheduled, fired, firedAt, yieldsAsked := [], [], [], 0;
    }

    /** Arrange for an interrupt fromNow ticks ahead. */
    method Schedule(toCall: nat, fromNow: int, kind: IntType)
      requires Consistent() && fromNow > 0
      modifies `pending, `nextSerial, `scheduled
      ensures Consistent()
      ensures scheduled == old(scheduled) + [PendingInterrupt(toCall, totalTicks + fromNow, kind, old(nextSerial))]
      ensures pending == InsertSorted(old(pending), scheduled[|scheduled| - 1], PendingCompare)
      ensures old(Valid()) ==> Valid()
    {
      var toOccur := PendingInterrupt(toCall, totalTicks + fromNow, kind, nextSerial);
      ScheduleKeepsHistory(scheduled, pending, fired, firedAt, totalTicks, toOccur);
      if Valid() {
        InsertAfter(pending, toOccur, totalTicks);
      }
      pending := InsertSorted(pending, toOccur, PendingCompare);
      scheduled := scheduled + [toOccur];
      nextSerial := nextSerial + 1;
    }

    method YieldOnReturn()
      requires inHandler
      modifies `yieldOnReturn, `yieldsAsked
      ensures yieldOnReturn && yieldsAsked == old(yieldsAsked) + 1
    {
      yieldOnReturn := true;
      yieldsAsked := yieldsAsked + 1;
    }

    /** A yield is due if it was already or if it has been asked for since. */
    twostate predicate YieldKept()
      reads this
    {
      old(yieldsAsked) <= yieldsAsked && (yieldOnReturn <==> old(yieldOnReturn) || old(yieldsAsked) < yieldsAsked)
    }

    method ScheduleFromHandler(toCall: nat, fromNow: int, kind: IntType, ghost floor: int)
      requires Consistent() && fromNow > 0
      requires floor <= totalTicks && AllAfter(pending, floor)
      modifies `pending, `nextSerial, `scheduled
      ensures Consistent() && AllAfter(pending, floor)
      ensures DueCount(pending, totalTicks) == DueCount(old(pending), totalTicks)
    {
      ghost var added := PendingInterrupt(toCall, totalTicks + fromNow, kind, nextSerial);
      InsertNotDue(pending, added, totalTicks);
      InsertAfter(pending, added, floor);
      Schedule(toCall, fromNow, kind);
    }

    /** The handler of an interrupt that is due: any number of Schedule and YieldOnReturn calls. That it
        ran, and when, is the history. */
    method CallBack(entry: PendingInterrupt, ghost floor: int)
      requires inHandler && totalTicks - SystemTick <= floor < entry.when <= totalTicks && AllAfter(pending, floor)
      requires totalTicks == idleTicks + systemTicks + userTicks && level == IntOff && nextSerial == |scheduled|
      requires History(scheduled, pending, fired + [entry], firedAt + [totalTicks], totalTicks)
      modifies `pending, `nextSerial, `scheduled, `yieldOnReturn, `yieldsAsked, `fired, `firedAt
      ensures Consistent() && AllAfter(pending, floor)
      ensures fired == old(fired) + [entry] && firedAt == old(firedAt) + [totalTicks]
      ensures DueCount(pending, totalTicks) == DueCount(old(pending), totalTicks)
      ensures YieldKept()
    {
      fired, firedAt := fired + [entry], firedAt + [totalTicks];
      var more: nat := *;
      while more > 0
        invariant Consistent() && AllAfter(pending, floor)
        invariant DueCount(pending, totalTicks) == DueCount(old(pending), totalTicks)
        invariant yieldOnReturn == old(yieldOnReturn) && yieldsAsked == old(yieldsAsked)
        invariant fired == old(fired) + [entry] && firedAt == old(firedAt) + [totalTicks]
      {
        var toCall: nat, fromNow: nat, kind: IntType := *, *, *;
        ScheduleFromHandler(toCall, fromNow + 1, kind, floor);
        more := more - 1;
      }
      var askYield: bool := *;
      if askYield {
        YieldOnReturn();
      }
    }

    /** Take the front interrupt off the list and call its handler. */
    method FireFront(ghost floor: int)
      requires Consistent() && inHandler && pending != [] && pending[0].when <= totalTicks
      requires totalTicks - SystemTick <= floor <= totalTicks && AllAfter(pending, floor)
      modifies `pending, `nextSerial, `scheduled, `yieldOnReturn, `yieldsAsked, `fired, `firedAt
      ensures Consistent() && AllAfter(pending, floor)
      ensures fired == old(fired) + [old(pending)[0]] && firedAt == old(firedAt) + [totalTicks]
      ensures DueCount(pending, totalTicks) < DueCount(old(pending), totalTicks)
      ensures YieldKept()
    {
      var next := pending[0];
      FireKeepsHistory(scheduled, pending, fired, firedAt, totalTicks);
      pending := pending[1..];
      CallBack(next, floor);
    }

    /** The firing loop. It ends although handlers reschedule themselves: what they schedule is
        never due yet, and time stands still. */
    method FireAllDue(ghost floor: int)
      requires Consistent() && inHandler && pending != [] && pending[0].when <= totalTicks
      requires totalTicks - SystemTick <= floor <= totalTicks && AllAfter(pending, floor)
      modifies `pending, `nextSerial, `scheduled, `yieldOnReturn, `yieldsAsked, `fired, `firedAt
      ensures Consistent() && AllAfter(pending, totalTicks)
      ensures old(fired) < fired && old(firedAt) < firedAt
      ensures forall i :: |old(fired)| <= i < |fired| ==> firedAt[i] == totalTicks && fired[i].when > floor
      ensures YieldKept()
    {
      var more := true;
      while more
        invariant Consistent() && AllAfter(pending, floor)
        invariant more <==> pending != [] && pending[0].when <= totalTicks
        invariant if more then old(fired) <= fired && old(firedAt) <= firedAt else old(fired) < fired && old(firedAt) < firedAt
        invariant forall i :: |old(fired)| <= i < |fired| ==> firedAt[i] == totalTicks && fired[i].when > floor
        invariant YieldKept()
        decreases DueCount(pending, totalTicks)
      {
        FireFront(floor);
        more := pending != [] && pending[0].when <= totalTicks;
      }
      FrontDecides(fired, pending, totalTicks);
    }

    /** Fire whatever is due; with advanceClock, first move the clock to the next interrupt. */
    method CheckIfDue(advanceClock: bool, ghost floor: int) returns (any: bool)
      requires Consistent() && !inHandler && level == IntOff
      requires totalTicks - SystemTick <= floor <= totalTicks && AllAfter(pending, floor)
      modifies `pending, `nextSerial, `scheduled, `yieldOnReturn, `yieldsAsked, `fired, `firedAt, `inHandler, `totalTicks, `idleTicks
      ensures Valid()
      ensures any <==> old(pending) != [] && (advanceClock || old(pending)[0].when <= old(totalTicks))
      ensures totalTicks == if any && old(pending)[0].when > old(totalTicks) then old(pending)[0].when else old(totalTicks)
      ensures if any then old(fired) < fired && old(firedAt) < firedAt else old(fired) == fired && old(firedAt) == firedAt
      ensures forall i :: |old(fired)| <= i < |fired| ==> firedAt[i] == totalTicks
      ensures forall i :: |old(fired)| <= i < |fired| ==>
                fired[i].when > if totalTicks == old(totalTicks) then floor else totalTicks - 1
      ensures YieldKept()
    {
      if pending == [] {
        return false;
      }
      var next := pending[0];
      ghost var low := floor;
      FrontDecides(fired, pending, totalTicks);
      FrontDecides(fired, pending, next.when - 1);
      if next.when > totalTicks {
        if !advanceClock {
          return false;
        } else {
          LaterKeepsHistory(scheduled, pending, fired, firedAt, totalTicks, next.when);
          idleTicks := idleTicks + (next.when - totalTicks);
          totalTicks := next.when;
          low := next.when - 1;
        }
      }
      inHandler := true;
      FireAllDue(low);
      inHandler := false;
      return true;
    }

    method AdvanceTime()
      requires Valid()
      modifies `totalTicks, `systemTicks, `userTicks
      ensures Consistent() && totalTicks == old(totalTicks) + TickLength(status)
      ensures if status == SystemMode then systemTicks == old(systemTicks) + 10 && userTicks == old(userTicks)
              else userTicks == old(userTicks) + 1 && systemTicks == old(systemTicks)
    {
      ghost var was := totalTicks;
      if status == SystemMode {
        totalTicks := totalTicks + SystemTick;
        systemTicks := systemTicks + SystemTick;
      } else {
        totalTicks := totalTicks + UserTick;
        userTicks := userTicks + UserTick;
      }
      LaterKeepsHistory(scheduled, pending, fired, firedAt, was, totalTicks);
    }

    /** OneTick's check: handlers run with interrupts disabled. */
    method CheckHandlersOff(ghost floor: int)
      requires Consistent() && !inHandler && level == IntOn
      requires totalTicks - SystemTick <= floor <= totalTicks && AllAfter(pending, floor)
      modifies this
      ensures Valid() && level == IntOn && status == old(status)
      ensures totalTicks == old(totalTicks) && idleTicks == old(idleTicks)
      ensures old(fired) <= fired && old(firedAt) <= firedAt
      ensures forall i :: |old(fired)| <= i < |fired| ==> firedAt[i] == totalTicks && fired[i].when > floor
      ensures YieldKept() && systemTicks == old(systemTicks) && userTicks == old(userTicks)
    {
      level := IntOff;
      var any := CheckIfDue(false, floor);
      level := IntOn;
    }

    /** Advance time by one tick and fire what that makes due, each less than that tick late. When
        a handler asked for it, the caller must now yield the CPU, and put its status back with
        AfterYield. */
    method OneTick() returns (mustYield: bool)
      requires Valid() && level == IntOn
      modifies this
      ensures Valid() && level == IntOn && !yieldOnReturn
      ensures totalTicks == old(totalTicks) + TickLength(old(status)) && idleTicks == old(idleTicks)
      ensures old(fired) <= fired && old(firedAt) <= firedAt
      ensures forall i :: |old(fired)| <= i < |fired| ==> firedAt[i] == totalTicks && fired[i].when > old(totalTicks)
      ensures status == if mustYield then SystemMode else old(status)
      ensures if old(status) == SystemMode then systemTicks == old(systemTicks) + 10 && userTicks == old(userTicks)
              else userTicks == old(userTicks) + 1 && systemTicks == old(systemTicks)
      ensures mustYield <==> old(yieldOnReturn) || old(yieldsAsked) < yieldsAsked
    {
      ghost var was := totalTicks;
      AdvanceTime();
      CheckHandlersOff(was);
      mustYield := yieldOnReturn;
      if yieldOnReturn {
        yieldOnReturn := false;
        status := SystemMode;
      }
    }

    method AfterYield(oldStatus: MachineStatus)
      requires Valid()
      modifies `status
      ensures Valid() && status == oldStatus
    {
      status := oldStatus;
    }

    /** Turning interrupts on, and only that, advances time. */
    method SetLevel(now: IntStatus) returns (oldLevel: IntStatus, mustYield: bool)
      requires Consistent() && (now == IntOff || Valid())
      modifies this
      ensures Consistent() && level == now && oldLevel == old(level)
      ensures old(Valid()) ==> Valid()
      ensures totalTicks - old(totalTicks) ==
              if now == IntOff || oldLevel == IntOn then 0 else TickLength(old(status))
      ensures now == IntOff || oldLevel == IntOn ==> fired == old(fired) && pending == old(pending) && !mustYield
    {
      oldLevel := level;
      level := now;
      mustYield := false;
      if now == IntOn && oldLevel == IntOff {
        mustYield := OneTick();
      }
    }

    /** Nothing is ready to run: jump to the next interrupt, which then fires exactly on time, or
        report that the machine halts when there is none. */
    method Idle() returns (halted: bool)
      requires Valid() && level == IntOff
      modifies this
      ensures halted <==> old(pending) == []
      ensures Valid()
      ensures !halted ==> status == SystemMode && totalTicks == old(pending)[0].when && |fired| > |old(fired)|
      ensures old(fired) <= fired
      ensures forall i :: |old(fired)| <= i < |fired| ==> firedAt[i] == fired[i].when == totalTicks
    {
      status := IdleMode;
      var any := CheckIfDue(true, totalTicks);
      if any {
        status := SystemMode;
        return false;
      }
      return true;
    }
  }
}
