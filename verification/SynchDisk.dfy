/** The synchronous disk (filesys/synchdisk.cc) over the raw one (machine/disk.cc): any number of
    threads, and completion interrupts at any later time. */
module SynchDiskSpec {
  import opened Options

  const NumSectors: int := 1024

  type Data = seq<int>   // the bytes of a sector

  /** ReadSector and WriteSector. */
  datatype Request = Read(sector: nat) | Write(sector: nat, data: Data)

  /** Where in the code a thread is. From the request on it knows its number and the data read or
      written. */
  datatype Pc =
    | TryLock(req: Request)
    | GotLock(req: Request)                               // about to set lockHolder
    | Ask(req: Request)                                   // about to call the disk
    | TryDone(serial: nat, sector: nat, data: Data)       // in P of the completion semaphore
    | DoneAsleep(serial: nat, sector: nat, data: Data)
    | Unlock(serial: nat, sector: nat, data: Data)
    | FreeLock(serial: nat, sector: nat, data: Data)      // about to V the lock's semaphore

  /** `issued` and `completed` are history: requests made of the disk and interrupts taken from it. */
  datatype State = State(
    pcs: map<nat, Pc>,
    lockValue: int, lockHolder: Option<nat>,
    value: int, queue: seq<nat>,
    active: bool, sectors: seq<Data>,
    issued: nat, completed: nat)

  datatype Step = Start(t: nat, req: Request) | Go(t: nat) | Interrupt

  /** A thread in P of the lock goes on when the lock is free. */
  ghost predicate Enabled(st: State, step: Step) {
    match step
    case Start(t, req) => t !in st.pcs && req.sector < NumSectors
    case Go(t) => t in st.pcs && !st.pcs[t].DoneAsleep? && (st.pcs[t].TryLock? ==> st.lockValue > 0)
    case Interrupt => st.active
  }

  /** What the source asserts. */
  ghost predicate Asserted(st: State, step: Step) {
    step.Go? && step.t in st.pcs ==>
      match st.pcs[step.t]
      case Ask(req) => !st.active && req.sector < |st.sectors|
      case Unlock(_, _, _) => st.lockHolder == Some(step.t)
      case _ => true
  }

  function At(st: State, t: nat, pc: Pc): State {
    st.(pcs := st.pcs[t := pc])
  }

  /** Semaphore::V on the completion semaphore. */
  function Complete(st: State): State {
    if st.queue == [] then st.(value := st.value + 1)
    else
      var first := st.queue[0];
      var st1 := st.(value := st.value + 1, queue := st.queue[1..]);
      if first in st.pcs && st.pcs[first].DoneAsleep? then
        At(st1, first, TryDone(st.pcs[first].serial, st.pcs[first].sector, st.pcs[first].data))
      else st1
  }

  ghost function Next(st: State, step: Step): State
    requires Enabled(st, step) && Asserted(st, step)
  {
    match step
    case Start(t, req) => At(st, t, TryLock(req))
    case Interrupt => Complete(st.(active := false, completed := st.completed + 1))
    case Go(t) =>
      match st.pcs[t]
      case TryLock(req) => At(st.(lockValue := st.lockValue - 1), t, GotLock(req))
      case GotLock(req) => At(st.(lockHolder := Some(t)), t, Ask(req))
      case Ask(Read(sector)) =>
        At(st.(active := true, issued := st.issued + 1), t, TryDone(st.issued + 1, sector, st.sectors[sector]))
      case Ask(Write(sector, data)) =>
        At(st.(active := true, issued := st.issued + 1, sectors := st.sectors[sector := data]), t, TryDone(st.issued + 1, sector, data))
      case TryDone(serial, sector, data) =>
        if st.value == 0 then At(st.(queue := st.queue + [t]), t, DoneAsleep(serial, sector, data))
        else At(st.(value := st.value - 1), t, Unlock(serial, sector, data))
      case Unlock(serial, sector, data) => At(st.(lockHolder := None), t, FreeLock(serial, sector, data))
      case FreeLock(serial, sector, data) => st.(lockValue := st.lockValue + 1, pcs := st.pcs - {t})
  }

  ghost predicate Holds(st: State, t: nat) { t in st.pcs && !st.pcs[t].TryLock? }

  /** Only one disk I/O at a time. */
  ghost predicate LockInv(st: State) {
    && (st.lockValue == 0 || st.lockValue == 1)
    && (forall t :: Holds(st, t) ==> st.lockValue == 0)
    && ((forall t :: !Holds(st, t)) ==> st.lockValue == 1)
    && (forall t, u :: Holds(st, t) && Holds(st, u) ==> t == u)
    && (forall t :: Holds(st, t) && !st.pcs[t].GotLock? && !st.pcs[t].FreeLock? ==> st.lockHolder == Some(t))
  }

  ghost predicate Asking(st: State, t: nat) { t in st.pcs && (st.pcs[t].TryLock? || st.pcs[t].GotLock? || st.pcs[t].Ask?) }

  /** Only sectors that the disk has are asked for. */
  ghost predicate SectorInv(st: State) {
    |st.sectors| == NumSectors && forall t :: Asking(st, t) ==> st.pcs[t].req.sector < NumSectors
  }

  /** Nothing asked of the disk that has not been waited for. */
  ghost predicate Quiet(st: State) {
    !st.active && st.value == 0 && st.queue == [] && st.issued == st.completed
  }

  /** One request out; or its interrupt has come, and not been taken. */
  ghost predicate Busy(st: State, serial: nat) {
    serial == st.issued &&
    if st.active then st.value == 0 && st.completed + 1 == st.issued
    else st.value == 1 && st.completed == st.issued
  }

  /** The sector still holds what the call has read or written. */
  ghost predicate Stable(st: State, sector: nat, data: Data) {
    sector < |st.sectors| && st.sectors[sector] == data
  }

  ghost predicate HolderInv(st: State, t: nat)
    requires t in st.pcs
  {
    match st.pcs[t]
    case TryLock(_) => true
    case GotLock(_) | Ask(_) => Quiet(st)
    case TryDone(serial, sector, data) => Busy(st, serial) && st.queue == [] && Stable(st, sector, data)
    case DoneAsleep(serial, sector, data) => Busy(st, serial) && st.active && st.queue == [t] && Stable(st, sector, data)
    case Unlock(serial, sector, data) => Quiet(st) && serial == st.completed && Stable(st, sector, data)
    case FreeLock(serial, sector, data) => Quiet(st) && serial == st.completed && Stable(st, sector, data)
  }

  ghost predicate DiskInv(st: State) {
    && (forall t :: Holds(st, t) ==> HolderInv(st, t))
    && ((forall t :: !Holds(st, t)) ==> Quiet(st))
  }

  ghost predicate Inv(st: State) { LockInv(st) && SectorInv(st) && DiskInv(st) }

  lemma InvAsserts(st: State, step: Step)
    requires Inv(st) && Enabled(st, step)
    ensures Asserted(st, step)
  {
    if step.Go? {
      assert Holds(st, step.t) <==> !st.pcs[step.t].TryLock?;
      assert st.pcs[step.t].Ask? ==> Asking(st, step.t);
    }
  }

  /** Whether a thread has the lock changes only for the thread that takes the step. */
  lemma HoldsAfter(st: State, step: Step, u: nat)
    requires Enabled(st, step) && Asserted(st, step)
    ensures Holds(Next(st, step), u) <==> if step == Go(u) then !st.pcs[u].FreeLock? else Holds(st, u)
  {
  }

  lemma StepKeepsLock(st: State, step: Step)
    requires LockInv(st) && Enabled(st, step) && Asserted(st, step)
    ensures LockInv(Next(st, step))
  {
    forall u ensures Holds(Next(st, step), u) <==> if step == Go(u) then !st.pcs[u].FreeLock? else Holds(st, u) {
      HoldsAfter(st, step, u);
    }
    assert step.Go? ==> (Holds(st, step.t) <==> !st.pcs[step.t].TryLock?);
  }

  lemma AskingAfter(st: State, step: Step, u: nat)
    requires SectorInv(st) && Enabled(st, step) && Asserted(st, step) && Asking(Next(st, step), u)
    ensures Next(st, step).pcs[u].req.sector < NumSectors
  {
    assert u in st.pcs ==> (Asking(st, u) ==> st.pcs[u].req.sector < NumSectors);
  }

  lemma StepKeepsSectors(st: State, step: Step)
    requires SectorInv(st) && Enabled(st, step) && Asserted(st, step)
    ensures SectorInv(Next(st, step))
  {
    forall u | Asking(Next(st, step), u) ensures Next(st, step).pcs[u].req.sector < NumSectors { AskingAfter(st, step, u); }
  }

  lemma GoKeepsDisk(st: State, t: nat)
    requires Inv(st) && Enabled(st, Go(t)) && Asserted(st, Go(t))
    ensures DiskInv(Next(st, Go(t)))
  {
    assert Holds(st, t) <==> !st.pcs[t].TryLock?;
    forall u ensures Holds(Next(st, Go(t)), u) <==> u == t && !st.pcs[t].FreeLock? {
      HoldsAfter(st, Go(t), u);
    }
    assert Holds(Next(st, Go(t)), t) <==> !st.pcs[t].FreeLock?;
  }

  lemma InterruptKeepsDisk(st: State)
    requires Inv(st) && Enabled(st, Interrupt)
    ensures DiskInv(Next(st, Interrupt))
  {
    var st' := Next(st, Interrupt);
    forall u ensures Holds(st', u) <==> Holds(st, u) { }
    if t :| Holds(st, t) {
      assert HolderInv(st, t);
    }
  }

  lemma NextKeepsInv(st: State, step: Step)
    requires Inv(st) && Enabled(st, step)
    ensures Asserted(st, step) && Inv(Next(st, step))
  {
    InvAsserts(st, step);
    StepKeepsLock(st, step);
    StepKeepsSectors(st, step);
    match step
    case Go(t) => GoKeepsDisk(st, t);
    case Interrupt => InterruptKeepsDisk(st);
    case Start(t, req) =>
      assert forall u :: Holds(Next(st, step), u) <==> Holds(st, u);
  }

  // Whole runs.

  ghost predicate Initial(st: State) {
    st == State(map[], 1, None, 0, [], false, st.sectors, 0, 0) && |st.sectors| == NumSectors
  }

  ghost predicate Becomes(st: State, step: Step, st': State) {
    Enabled(st, step) && Asserted(st, step) && st' == Next(st, step)
  }

  ghost predicate IsRun(states: seq<State>, steps: seq<Step>) {
    && |states| == |steps| + 1 && Initial(states[0])
    && forall i :: 0 <= i < |steps| ==> Becomes(states[i], steps[i], states[i + 1])
  }

  lemma {:induction false} RunsKeepInv(states: seq<State>, steps: seq<Step>, n: nat)
    requires IsRun(states, steps) && n <= |steps|
    ensures Inv(states[n])
  {
    hide Inv;
    if n == 0 {
      InitialInv(states[0]);
    } else {
      RunsKeepInv(states, steps, n - 1);
      assert Becomes(states[n - 1], steps[n - 1], states[n]);
      NextKeepsInv(states[n - 1], steps[n - 1]);
    }
  }

  lemma InitialInv(st: State)
    requires Initial(st)
    ensures Inv(st)
  {
  }

  /** In every interleaving: the disk is never asked while active, the lock is held when it is released,
      the completion semaphore is 0 or 1, and only one thread is between P and V of the lock. */
  lemma DiskAskedWhenIdle(states: seq<State>, steps: seq<Step>, n: nat, next: Step, t: nat, u: nat)
    requires IsRun(states, steps) && n <= |steps|
    ensures Enabled(states[n], next) ==> Asserted(states[n], next)
    ensures 0 <= states[n].value <= 1
    ensures Holds(states[n], t) && Holds(states[n], u) ==> t == u
  {
    RunsKeepInv(states, steps, n);
    if Enabled(states[n], next) { InvAsserts(states[n], next); }
    if x :| Holds(states[n], x) { assert HolderInv(states[n], x); }
  }

  /** A thread sleeps on the completion semaphore only while its request is with the disk. */
  lemma SleepsOnlyWhileActive(states: seq<State>, steps: seq<Step>, n: nat, t: nat)
    requires IsRun(states, steps) && n <= |steps| && t in states[n].pcs && states[n].pcs[t].DoneAsleep?
    ensures states[n].active && states[n].queue == [t] && states[n].pcs[t].serial == states[n].issued
  {
    RunsKeepInv(states, steps, n);
    assert Holds(states[n], t);
  }

  /** Past its request, with this number. */
  ghost predicate Asked(st: State, t: nat, serial: nat) {
    Holds(st, t) && !st.pcs[t].GotLock? && !st.pcs[t].Ask? && st.pcs[t].serial == serial
  }

  /** The step that asked the disk. */
  ghost predicate Asks(st: State, step: Step, t: nat) {
    step == Go(t) && t in st.pcs && st.pcs[t].Ask?
  }

  lemma AskedBefore(st: State, step: Step, t: nat, serial: nat)
    requires Enabled(st, step) && Asserted(st, step) && Asked(Next(st, step), t, serial)
    ensures Asked(st, t, serial) || (Asks(st, step, t) && Next(st, step).issued == serial)
  {
  }

  lemma CompletedSteps(st: State, step: Step)
    requires Enabled(st, step) && Asserted(st, step)
    ensures Next(st, step).completed == st.completed + if step.Interrupt? then 1 else 0
  {
  }

  lemma {:induction false} CompletedGrows(states: seq<State>, steps: seq<Step>, i: nat, n: nat)
    requires IsRun(states, steps) && i <= n <= |steps|
    ensures states[i].completed <= states[n].completed
  {
    if i < n {
      CompletedGrows(states, steps, i, n - 1);
      assert Becomes(states[n - 1], steps[n - 1], states[n]);
      CompletedSteps(states[n - 1], steps[n - 1]);
    }
  }

  /** The interrupt that raised the count to a given number. */
  lemma {:induction false} FindCompletion(states: seq<State>, steps: seq<Step>, i: nat, n: nat, serial: nat) returns (j: nat)
    requires IsRun(states, steps) && i <= n <= |steps| && states[i].completed < serial <= states[n].completed
    ensures i <= j < n && steps[j].Interrupt? && states[j + 1].completed == serial
  {
    assert Becomes(states[n - 1], steps[n - 1], states[n]);
    CompletedSteps(states[n - 1], steps[n - 1]);
    if states[n - 1].completed < serial {
      j := n - 1;
    } else {
      j := FindCompletion(states, steps, i, n - 1, serial);
    }
  }

  // What the calls are about, read off the steps.

  /** The request of the thread's latest call. */
  ghost function RequestOf(steps: seq<Step>, n: nat, t: nat): Option<Request>
    requires n <= |steps|
  {
    if n == 0 then None
    else if steps[n - 1].Start? && steps[n - 1].t == t then Some(steps[n - 1].req)
    else RequestOf(steps, n - 1, t)
  }

  /** Where the thread is in its call, it is for that request. */
  ghost predicate Carries(pc: Pc, req: Request) {
    match pc
    case TryLock(r) => r == req
    case GotLock(r) => r == req
    case Ask(r) => r == req
    case _ => pc.sector == req.sector && (req.Write? ==> pc.data == req.data)
  }

  lemma CarryStep(st: State, step: Step, t: nat, req: Request)
    requires Enabled(st, step) && Asserted(st, step) && t in Next(st, step).pcs
    requires if step.Start? && step.t == t then req == step.req else t in st.pcs ==> Carries(st.pcs[t], req)
    ensures Carries(Next(st, step).pcs[t], req) && (t in st.pcs || (step.Start? && step.t == t))
  {
  }

  lemma {:induction false} CarriesRequest(states: seq<State>, steps: seq<Step>, n: nat, t: nat)
    requires IsRun(states, steps) && n <= |steps| && t in states[n].pcs
    ensures RequestOf(steps, n, t).Some? && Carries(states[n].pcs[t], RequestOf(steps, n, t).value)
  {
    hide Next, Carries;
    if n > 0 {
      assert Becomes(states[n - 1], steps[n - 1], states[n]);
      if t in states[n - 1].pcs { CarriesRequest(states, steps, n - 1, t); }
      CarryStep(states[n - 1], steps[n - 1], t, if RequestOf(steps, n, t).Some? then RequestOf(steps, n, t).value else Read(0));
    }
  }

  /** What the sector should hold: the data of the last WriteSector call for it that has asked the disk,
      or what was there at first. */
  ghost function LastWritten(states: seq<State>, steps: seq<Step>, n: nat, x: nat): Data
    requires IsRun(states, steps) && n <= |steps| && x < NumSectors
  {
    if n == 0 then states[0].sectors[x]
    else if WritesTo(states, steps, n - 1, x) then RequestOf(steps, n - 1, steps[n - 1].t).value.data
    else LastWritten(states, steps, n - 1, x)
  }

  /** Step i asks the disk for a call WriteSector(x, ...). */
  ghost predicate WritesTo(states: seq<State>, steps: seq<Step>, i: nat, x: nat)
    requires IsRun(states, steps) && i < |steps|
  {
    && steps[i].Go? && Asks(states[i], steps[i], steps[i].t)
    && var req := RequestOf(steps, i, steps[i].t);
       req.Some? && req.value.Write? && req.value.sector == x
  }

  lemma SectorStep(st: State, step: Step, x: nat)
    requires Enabled(st, step) && Asserted(st, step) && x < |st.sectors|
    ensures |Next(st, step).sectors| == |st.sectors|
    ensures Next(st, step).sectors[x] ==
            if step.Go? && Asks(st, step, step.t) && st.pcs[step.t].req.Write? && st.pcs[step.t].req.sector == x
            then st.pcs[step.t].req.data else st.sectors[x]
  {
  }

  /** In every interleaving every sector holds what was last written to it. */
  lemma {:induction false} SectorsHoldLastWritten(states: seq<State>, steps: seq<Step>, n: nat, x: nat)
    requires IsRun(states, steps) && n <= |steps| && x < NumSectors
    ensures |states[n].sectors| == NumSectors && states[n].sectors[x] == LastWritten(states, steps, n, x)
  {
    hide Next;
    if n > 0 {
      assert Becomes(states[n - 1], steps[n - 1], states[n]);
      SectorsHoldLastWritten(states, steps, n - 1, x);
      SectorStep(states[n - 1], steps[n - 1], x);
      if steps[n - 1].Go? { CarriesRequest(states, steps, n - 1, steps[n - 1].t); }
    }
  }

  /** What the call returns is what the sector held when the disk was asked. */
  lemma AskedData(st: State, step: Step, t: nat)
    requires Enabled(st, step) && Asserted(st, step) && Asks(st, step, t)
    ensures var st' := Next(st, step); t in st'.pcs && st'.pcs[t].TryDone? && Stable(st', st'.pcs[t].sector, st'.pcs[t].data)
  {
  }

  lemma SameData(st: State, step: Step, t: nat, serial: nat)
    requires Enabled(st, step) && Asserted(st, step) && Asked(Next(st, step), t, serial) && !Asks(st, step, t)
    ensures Asked(st, t, serial) && Next(st, step).pcs[t].data == st.pcs[t].data && Next(st, step).pcs[t].sector == st.pcs[t].sector
  {
  }

  /** The step at which the call asked the disk. */
  lemma {:induction false} FindAsk(states: seq<State>, steps: seq<Step>, n: nat, t: nat, serial: nat) returns (i: nat)
    requires IsRun(states, steps) && n <= |steps| && Asked(states[n], t, serial)
    ensures i < n && Asks(states[i], steps[i], t) && states[i + 1].issued == serial && RequestOf(steps, i, t) == RequestOf(steps, n, t)
    ensures Stable(states[i + 1], states[n].pcs[t].sector, states[n].pcs[t].data)
  {
    hide Next;
    if n > 0 {
      assert Becomes(states[n - 1], steps[n - 1], states[n]);
      AskedBefore(states[n - 1], steps[n - 1], t, serial);
      if Asks(states[n - 1], steps[n - 1], t) {
        i := n - 1;
        AskedData(states[n - 1], steps[n - 1], t);
      } else {
        SameData(states[n - 1], steps[n - 1], t, serial);
        i := FindAsk(states, steps, n - 1, t, serial);
      }
    }
  }

  lemma InvAtReturn(st: State, t: nat)
    requires Inv(st) && t in st.pcs && st.pcs[t].FreeLock?
    ensures st.pcs[t].serial == st.completed && Stable(st, st.pcs[t].sector, st.pcs[t].data) && Asked(st, t, st.completed)
    ensures |st.sectors| == NumSectors
  {
    assert Holds(st, t);
  }

  lemma InvAtAsk(st: State, step: Step, t: nat)
    requires Inv(st) && Enabled(st, step) && Asserted(st, step) && Asks(st, step, t)
    ensures Next(st, step).issued == Next(st, step).completed + 1
  {
    assert Holds(st, t);
  }

  /** Each call returns only after its own completion: the disk took its request at step i and reported
      it done at a later step j, both before the return. */
  lemma ReturnsAfterOwnCompletion(states: seq<State>, steps: seq<Step>, n: nat, t: nat) returns (i: nat, j: nat)
    requires IsRun(states, steps) && n < |steps| && steps[n] == Go(t) && t in states[n].pcs && states[n].pcs[t].FreeLock?
    ensures i < j < n && Asks(states[i], steps[i], t) && steps[j].Interrupt?
    ensures states[i + 1].issued == states[j + 1].completed == states[n].pcs[t].serial
    ensures RequestOf(steps, i, t) == RequestOf(steps, n, t)
    ensures Stable(states[i + 1], states[n].pcs[t].sector, states[n].pcs[t].data)
  {
    hide Inv, Next;
    RunsKeepInv(states, steps, n);
    InvAtReturn(states[n], t);
    var serial := states[n].pcs[t].serial;
    i := FindAsk(states, steps, n, t, serial);
    RunsKeepInv(states, steps, i);
    assert Becomes(states[i], steps[i], states[i + 1]);
    InvAtAsk(states[i], steps[i], t);
    j := FindCompletion(states, steps, i + 1, n, serial);
  }

  /** WriteSector(x, d) leaves d in sector x, where it still is on return; ReadSector(x) returns what was
      last written to x when the disk was asked, which is still there too. */
  lemma ReturnsRightData(states: seq<State>, steps: seq<Step>, n: nat, t: nat) returns (i: nat)
    requires IsRun(states, steps) && n < |steps| && steps[n] == Go(t) && t in states[n].pcs && states[n].pcs[t].FreeLock?
    ensures i < n && Asks(states[i], steps[i], t) && RequestOf(steps, n, t).Some? && RequestOf(steps, i, t) == RequestOf(steps, n, t)
    ensures var req := RequestOf(steps, n, t).value;
            && req.sector < NumSectors
            && states[n].pcs[t].data == LastWritten(states, steps, n, req.sector)
            && states[n].pcs[t].data == if req.Write? then req.data else LastWritten(states, steps, i, req.sector)
  {
    hide Inv, Next;
    RunsKeepInv(states, steps, n);
    InvAtReturn(states[n], t);
    var j: nat;
    i, j := ReturnsAfterOwnCompletion(states, steps, n, t);
    CarriesRequest(states, steps, n, t);
    var x := states[n].pcs[t].sector;
    SectorsHoldLastWritten(states, steps, n, x);
    SectorsHoldLastWritten(states, steps, i + 1, x);
  }
}

/** The code of filesys/synchdisk.cc and the request side of machine/disk.cc, cut where another thread
    or the interrupt may come in. Each method takes thread t one step. */
module SynchDisks {
  import opened Options
  import opened SynchDiskSpec

  class SynchDisk {
    var pcs: map<nat, Pc>
    var lockValue: int
    var lockHolder: Option<nat>
    var value: int
    var queue: seq<nat>
    var active: bool
    var sectors: seq<Data>
    var issued: nat
    ghost var completed: nat

    ghost function View(): State
      reads this
    {
      State(pcs, lockValue, lockHolder, value, queue, active, sectors, issued, completed)
    }

    constructor (contents: seq<Data>)
      requires |contents| == NumSectors
      ensures Initial(View()) && Inv(View()) && sectors == contents
    {
      pcs, lockValue, lockHolder, value, queue := map[], 1, None, 0, [];
      active, sectors, issued, completed := false, contents, 0, 0;
    }

    ghost predicate CanGo(t: nat)
      reads this
    {
      Inv(View()) && Enabled(View(), Go(t))
    }

    /** ReadSector and WriteSector begin alike. */
    method Enter(t: nat, req: Request)
      requires Inv(View()) && t !in pcs && req.sector < NumSectors
      modifies this
      ensures Inv(View()) && Becomes(old(View()), Start(t, req), View())
    {
      hide Inv;
      NextKeepsInv(View(), Start(t, req));
      pcs := pcs[t := TryLock(req)];
    }

    method Acquire(t: nat)
      requires CanGo(t) && (pcs[t].TryLock? || pcs[t].GotLock?)
      modifies this
      ensures Inv(View()) && Becomes(old(View()), Go(t), View())
    {
      hide Inv;
      NextKeepsInv(View(), Go(t));
      if pcs[t].TryLock? {
        lockValue := lockValue - 1;
        pcs := pcs[t := GotLock(pcs[t].req)];
      } else {
        lockHolder := Some(t);
        pcs := pcs[t := Ask(pcs[t].req)];
      }
    }

    /** Disk::ReadRequest and Disk::WriteRequest. */
    method AskDisk(t: nat)
      requires CanGo(t) && pcs[t].Ask?
      modifies this
      ensures Inv(View()) && Becomes(old(View()), Go(t), View())
    {
      hide Inv;
      NextKeepsInv(View(), Go(t));
      assert !active;
      var sector := pcs[t].req.sector;
      if pcs[t].req.Write? {
        sectors := sectors[sector := pcs[t].req.data];
      }
      active := true;
      issued := issued + 1;
      pcs := pcs[t := TryDone(issued, sector, sectors[sector])];
    }

    /** P on the completion semaphore. */
    method AwaitCompletion(t: nat)
      requires CanGo(t) && pcs[t].TryDone?
      modifies this
      ensures Inv(View()) && Becomes(old(View()), Go(t), View())
    {
      hide Inv;
      NextKeepsInv(View(), Go(t));
      var pc := pcs[t];
      if value == 0 {
        queue := queue + [t];
        pcs := pcs[t := DoneAsleep(pc.serial, pc.sector, pc.data)];
      } else {
        value := value - 1;
        pcs := pcs[t := Unlock(pc.serial, pc.sector, pc.data)];
      }
    }

    method Release(t: nat)
      requires CanGo(t) && (pcs[t].Unlock? || pcs[t].FreeLock?)
      modifies this
      ensures Inv(View()) && Becomes(old(View()), Go(t), View())
    {
      hide Inv;
      NextKeepsInv(View(), Go(t));
      var pc := pcs[t];
      if pc.Unlock? {
        lockHolder := None;
        pcs := pcs[t := FreeLock(pc.serial, pc.sector, pc.data)];
      } else {
        lockValue := lockValue + 1;
        pcs := pcs - {t};
      }
    }

    /** Disk::CallBack, and with it SynchDisk::CallBack. */
    method CallBack()
      requires Inv(View()) && active
      modifies this
      ensures Inv(View()) && Becomes(old(View()), Interrupt, View())
    {
      hide Inv;
      NextKeepsInv(View(), Interrupt);
      active, completed := false, completed + 1;
      if queue != [] {
        var first := queue[0];
        queue := queue[1..];
        if first in pcs && pcs[first].DoneAsleep? {
          pcs := pcs[first := TryDone(pcs[first].serial, pcs[first].sector, pcs[first].data)];
        }
      }
      value := value + 1;
    }
  }
}
