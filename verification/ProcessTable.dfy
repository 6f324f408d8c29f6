/** The process table (userprog/Ptable.cc, userprog/PCB.cc): Exec, Join and Exit of any number of
    processes, cut where another process may run. */
module ProcessSpec {
  import opened Options

  const MaxProcess: int := 10

  /** A process control block. `inc` numbers the incarnations, which the source does not: slots, and
      with them process ids, are used again. */
  datatype Pcb = Pcb(inc: nat, processID: int, parentID: int, exitcode: int, joinsem: int, exitsem: int)

  /** A Join under way: the slot it is for and, as history, the incarnation it found there when it
      checked and whether an earlier Join had already let that one go. */
  datatype Join = Join(id: int, inc: nat, stray: bool)

  datatype Pc =
    | User
    | ExecEnter(name: Option<string>)     // before P of bmsem
    | ExecInside(name: Option<string>)
    | ExecFork(index: int, file: string)  // the block is in the table, the thread not yet forked
    | ExecLeave(result: int)              // before V of bmsem
    | JoinEnter(j: Join)                  // the check has passed; before the call of JoinWait
    | JoinWait(j: Join, on: nat)          // in P of the joinsem of incarnation `on`
    | JoinRead(j: Join, on: nat)          // past it; before GetExitCode
    | JoinFree(j: Join, on: nat, code: int)   // before ExitRelease
    | ExitJoin                            // exit code set; before JoinRelease
    | ExitWait                            // in P of its own exitsem
    | ExitRemove                          // before Remove

  datatype Process = Process(slot: int, name: string, pc: Pc)

  datatype Record = Record(j: Join, on: nat, code: int)

  /** `codes` has the argument of each Exit; `passed` and `released` the incarnations whose joinsem has
      been passed and whose exitsem has been raised; `returned` the Joins that have returned a code,
      and `clean` says that no Join has been started on a released incarnation. All are history. */
  datatype State = State(
    table: seq<Option<Pcb>>, procs: map<nat, Process>, bmsem: int, next: nat,
    codes: map<nat, int>, passed: set<nat>, released: set<nat>, returned: seq<Record>, clean: bool)

  predicate InTable(id: int) { 0 <= id < MaxProcess }

  /** The block of an incarnation sits in the slot. */
  predicate Has(st: State, id: int, inc: nat) {
    |st.table| == MaxProcess && InTable(id) && st.table[id].Some? && st.table[id].value.inc == inc
  }

  function At(st: State, p: nat, pc: Pc): State
    requires p in st.procs
  {
    st.(procs := st.procs[p := st.procs[p].(pc := pc)])
  }

  function Put(st: State, id: int, pcb: Option<Pcb>): State
    requires InTable(id) && |st.table| == MaxProcess
  {
    st.(table := st.table[id := pcb])
  }

  /** The lowest empty slot, or -1. */
  function FreeSlot(table: seq<Option<Pcb>>, i: nat): (r: int)
    requires i <= |table|
    ensures r == -1 || i <= r < |table|
    ensures r == -1 ==> forall k :: i <= k < |table| ==> table[k].Some?
    ensures r >= 0 ==> table[r].None? && forall k :: i <= k < r ==> table[k].Some?
    decreases |table| - i
  {
    if i == |table| then -1 else if table[i].None? then i else FreeSlot(table, i + 1)
  }

  /** The check at the head of JoinUpdate. */
  predicate MayJoin(st: State, p: nat, id: int)
    requires p in st.procs && |st.table| == MaxProcess
  {
    InTable(id) && st.table[id].Some? && st.table[id].value.parentID == st.procs[p].slot
  }

  datatype Step = StartExec(p: nat, name: Option<string>) | StartJoin(p: nat, id: int) | StartExit(p: nat, code: int) | Go(p: nat)

  /** Exit needs the parent's slot to be in use, and ends the whole system for process 0. P of a
      semaphore goes on when its value is positive; a deleted semaphore's never does. */
  ghost predicate Enabled(st: State, step: Step) {
    && |st.table| == MaxProcess && step.p in st.procs
    && var proc := st.procs[step.p];
       match step
       case StartExec(p, name) => proc.pc.User?
       case StartJoin(p, id) => proc.pc.User?
       case StartExit(p, code) =>
         && proc.pc.User? && proc.slot != 0 && Has(st, proc.slot, p)
         && InTable(st.table[proc.slot].value.parentID) && st.table[st.table[proc.slot].value.parentID].Some?
       case Go(p) =>
         match proc.pc
         case User => false
         case ExecEnter(_) => st.bmsem > 0
         case JoinWait(j, on) => Has(st, j.id, on) && st.table[j.id].value.joinsem > 0
         case ExitWait => Has(st, proc.slot, p) && st.table[proc.slot].value.exitsem > 0
         case _ => true
  }

  /** No null pointer is followed, and a process finds its own block in its slot. */
  ghost predicate Asserted(st: State, step: Step) {
    step.Go? && Enabled(st, step) ==>
      match st.procs[step.p].pc
      case JoinEnter(j) => InTable(j.id) && st.table[j.id].Some?
      case JoinRead(j, on) => InTable(j.id) && st.table[j.id].Some?
      case JoinFree(j, on, code) => InTable(j.id) && st.table[j.id].Some?
      case ExecFork(index, name) => InTable(index) && st.table[index].Some?
      case ExitJoin => Has(st, st.procs[step.p].slot, step.p)
      case ExitRemove => Has(st, st.procs[step.p].slot, step.p)
      case _ => true
  }

  ghost function Next(st: State, step: Step): State
    requires Enabled(st, step) && Asserted(st, step)
  {
    match step
    case StartExec(p, name) => At(st, p, ExecEnter(name))
    case StartJoin(p, id) =>
      if !MayJoin(st, p, id) then st      // returns -1
      else
        var inc := st.table[id].value.inc;
        At(st.(clean := st.clean && inc !in st.released), p, JoinEnter(Join(id, inc, inc in st.released)))
    case StartExit(p, code) =>
      var slot := st.procs[p].slot;
      At(Put(st, slot, Some(st.table[slot].value.(exitcode := code))).(codes := st.codes[p := code]), p, ExitJoin)
    case Go(p) => Advance(st, p)
  }

  /** ExecUpdate between P and V of bmsem, up to the fork. */
  ghost function Allocate(st: State, p: nat, name: Option<string>): State
    requires p in st.procs && |st.table| == MaxProcess
  {
    var index := FreeSlot(st.table, 0);
    if name.None? || name.value == st.procs[p].name || index < 0 then At(st, p, ExecLeave(-1))
    else At(Put(st, index, Some(Pcb(st.next, index, st.procs[p].slot, 0, 0, 0))).(next := st.next + 1), p, ExecFork(index, name.value))
  }

  ghost function Advance(st: State, p: nat): State
    requires Enabled(st, Go(p)) && Asserted(st, Go(p))
  {
    var proc := st.procs[p];
    match proc.pc
    case User => st
    case ExecEnter(name) => At(st.(bmsem := st.bmsem - 1), p, ExecInside(name))
    case ExecInside(name) => Allocate(st, p, name)
    case ExecFork(index, name) =>
      var child := Process(st.table[index].value.processID, name, User);
      At(st.(procs := st.procs[st.table[index].value.inc := child]), p, ExecLeave(index))
    case ExecLeave(result) => At(st.(bmsem := st.bmsem + 1), p, User)
    case JoinEnter(j) => At(st, p, JoinWait(j, st.table[j.id].value.inc))
    case JoinWait(j, on) =>
      var pcb := st.table[j.id].value;
      At(Put(st, j.id, Some(pcb.(joinsem := pcb.joinsem - 1))).(passed := st.passed + {on}), p, JoinRead(j, on))
    case JoinRead(j, on) => At(st, p, JoinFree(j, on, st.table[j.id].value.exitcode))
    case JoinFree(j, on, code) =>
      var pcb := st.table[j.id].value;
      At(Put(st, j.id, Some(pcb.(exitsem := pcb.exitsem + 1))).(released := st.released + {pcb.inc}, returned := st.returned + [Record(j, on, code)]), p, User)
    case ExitJoin =>
      var pcb := st.table[proc.slot].value;
      At(Put(st, proc.slot, Some(pcb.(joinsem := pcb.joinsem + 1))), p, ExitWait)
    case ExitWait =>
      var pcb := st.table[proc.slot].value;
      At(Put(st, proc.slot, Some(pcb.(exitsem := pcb.exitsem - 1))), p, ExitRemove)
    case ExitRemove => Put(st, proc.slot, None).(procs := st.procs - {p})
  }

  // The invariant, by what it is about.

  ghost predicate Occupied(st: State, i: int) { |st.table| == MaxProcess && InTable(i) && st.table[i].Some? }

  /** Occupied slot i has process id i, and no incarnation has two blocks. */
  ghost predicate TableInv(st: State) {
    && |st.table| == MaxProcess
    && (forall i :: Occupied(st, i) ==> st.table[i].value.processID == i && st.table[i].value.inc < st.next)
    && (forall i, k :: Occupied(st, i) && Occupied(st, k) && st.table[i].value.inc == st.table[k].value.inc ==> i == k)
  }

  predicate InExec(pc: Pc) { pc.ExecInside? || pc.ExecFork? || pc.ExecLeave? }

  ghost predicate Execs(st: State, p: nat) { p in st.procs && InExec(st.procs[p].pc) }

  /** A live process has its own block in its slot; a block being forked has no process yet. */
  ghost predicate ProcInv(st: State) {
    && (forall p :: p in st.procs ==> Has(st, st.procs[p].slot, p))
    && (forall p :: p in st.procs && st.procs[p].pc.ExecFork? ==>
          Occupied(st, st.procs[p].pc.index) && st.table[st.procs[p].pc.index].value.inc !in st.procs)
    && (st.bmsem == 0 || st.bmsem == 1)
    && (forall p :: Execs(st, p) ==> st.bmsem == 0)
    && ((forall p :: !Execs(st, p)) ==> st.bmsem == 1)
    && (forall p, q :: Execs(st, p) && Execs(st, q) ==> p == q)
  }

  /** Past JoinRelease, and so waiting to be let go. */
  ghost predicate Exiting(st: State, c: nat) { c in st.procs && (st.procs[c].pc.ExitWait? || st.procs[c].pc.ExitRemove?) }

  /** Past its exitsem. */
  ghost predicate Removing(st: State, c: nat) { c in st.procs && st.procs[c].pc.ExitRemove? }

  /** Past SetExitCode. */
  ghost predicate HasCode(st: State, c: nat) { c in st.procs && (Exiting(st, c) || st.procs[c].pc.ExitJoin?) }

  /** The semaphores of a block: joinsem is up from the exit to the one Join that passes it, and exitsem
      from its release to the process's leaving. */
  ghost predicate BlockInv(st: State, i: int)
    requires Occupied(st, i)
  {
    var pcb := st.table[i].value;
    && pcb.joinsem == (if Exiting(st, pcb.inc) && pcb.inc !in st.passed then 1 else 0)
    && (pcb.inc in st.passed ==> Exiting(st, pcb.inc))
    && pcb.exitsem == (if pcb.inc in st.released && !Removing(st, pcb.inc) then 1 else 0)
    && (HasCode(st, pcb.inc) ==> pcb.inc in st.codes && st.codes[pcb.inc] == pcb.exitcode)
  }

  ghost predicate SemInv(st: State) {
    && (forall i :: Occupied(st, i) ==> BlockInv(st, i))
    && (forall c :: Removing(st, c) ==> c in st.released)
    && (forall c :: c in st.passed ==> c < st.next && c in st.codes)
    && st.released <= st.passed
  }

  ghost predicate Past(st: State, p: nat, on: nat) {
    p in st.procs && (st.procs[p].pc.JoinRead? || st.procs[p].pc.JoinFree?) && st.procs[p].pc.on == on
  }

  ghost predicate Joins(st: State, p: nat) {
    p in st.procs && (st.procs[p].pc.JoinEnter? || st.procs[p].pc.JoinWait? || st.procs[p].pc.JoinRead? || st.procs[p].pc.JoinFree?)
  }

  /** The one Join past an incarnation's joinsem: the block stays in its slot until it lets it go. */
  ghost predicate PastInv(st: State, p: nat)
    requires Joins(st, p)
  {
    var pc := st.procs[p].pc;
    && InTable(pc.j.id)
    && (pc.j.stray ==> pc.j.inc in st.released)
    && (pc.JoinRead? || pc.JoinFree? ==>
          && Has(st, pc.j.id, pc.on) && pc.on in st.passed && pc.on !in st.released
          && (pc.j.stray ==> pc.on != pc.j.inc))
    && (pc.JoinFree? ==> pc.on in st.codes && pc.code == st.codes[pc.on])
  }

  ghost predicate JoinInv(st: State) {
    && (forall p :: Joins(st, p) ==> PastInv(st, p))
    && (forall p, q, on :: Past(st, p, on) && Past(st, q, on) ==> p == q)
  }

  /** What came back: the code of the incarnation waited for, which is not the one checked if that had
      already been let go. */
  ghost predicate RecordInv(st: State, r: Record) {
    r.on in st.passed && r.on in st.codes && r.code == st.codes[r.on] && (r.j.stray ==> r.on != r.j.inc)
  }

  ghost predicate ReturnInv(st: State) {
    forall k :: 0 <= k < |st.returned| ==> RecordInv(st, st.returned[k])
  }

  ghost predicate Inv(st: State) {
    TableInv(st) && ProcInv(st) && SemInv(st) && JoinInv(st) && ReturnInv(st)
  }

  // What more holds as long as nobody joins a process it has joined before.

  ghost predicate CleanJoin(st: State, p: nat)
    requires Joins(st, p)
  {
    var pc := st.procs[p].pc;
    && !pc.j.stray
    && Has(st, pc.j.id, pc.j.inc) && st.table[pc.j.id].value.parentID == st.procs[p].slot
    && (pc.JoinEnter? || pc.JoinWait? ==> pc.j.inc !in st.passed)
    && (!pc.JoinEnter? ==> pc.on == pc.j.inc)
  }

  ghost predicate CleanInv(st: State) {
    st.clean ==>
      && (forall p :: Joins(st, p) ==> CleanJoin(st, p))
      && (forall k :: 0 <= k < |st.returned| ==> st.returned[k].on == st.returned[k].j.inc)
  }

  /** An incarnation whose joinsem has been passed is let go by the Join that passed it, and by no other. */
  ghost predicate OpenInv(st: State) {
    forall c :: c in st.passed && c !in st.released ==> exists q :: Past(st, q, c)
  }

  /** A Join started on a released incarnation, under way or returned. */
  ghost predicate StrayAt(st: State, p: nat) { Joins(st, p) && st.procs[p].pc.j.stray }

  ghost predicate StrayReturned(st: State, k: int) { 0 <= k < |st.returned| && st.returned[k].j.stray }

  ghost predicate StrayInv(st: State) {
    st.clean || (exists p :: StrayAt(st, p)) || (exists k :: StrayReturned(st, k))
  }

  /** A step that can be taken without failing. */
  ghost predicate Happens(st: State, step: Step) { Enabled(st, step) && Asserted(st, step) }

  // How steps change the table and the set of processes.

  ghost predicate Adds(st: State, step: Step) {
    && step.Go? && step.p in st.procs && st.procs[step.p].pc.ExecInside?
    && var name := st.procs[step.p].pc.name;
       name.Some? && name.value != st.procs[step.p].name && FreeSlot(st.table, 0) >= 0
  }

  ghost predicate Forks(st: State, step: Step) { step.Go? && step.p in st.procs && st.procs[step.p].pc.ExecFork? }

  ghost predicate Removes(st: State, step: Step) { step.Go? && step.p in st.procs && st.procs[step.p].pc.ExitRemove? }

  /** The same incarnation, as the same process of the same parent. */
  predicate SameBlock(a: Option<Pcb>, b: Option<Pcb>) {
    && (a.Some? <==> b.Some?)
    && (a.Some? ==> a.value.inc == b.value.inc && a.value.processID == b.value.processID && a.value.parentID == b.value.parentID)
  }

  /** A slot is filled by Exec, emptied by the process in it, and otherwise keeps its block. */
  ghost predicate SlotMoves(st: State, step: Step, st': State, i: int)
    requires |st.table| == MaxProcess && step.p in st.procs && InTable(i)
  {
    && |st'.table| == MaxProcess && st'.next == st.next + (if Adds(st, step) then 1 else 0)
    && if Adds(st, step) && i == FreeSlot(st.table, 0) then
         st.table[i].None? && st'.table[i] == Some(Pcb(st.next, i, st.procs[step.p].slot, 0, 0, 0))
       else if Removes(st, step) && i == st.procs[step.p].slot then
         Has(st, i, step.p) && st'.table[i].None?
       else SameBlock(st.table[i], st'.table[i])
  }

  lemma SlotAfter(st: State, step: Step, i: int)
    requires Happens(st, step) && InTable(i)
    ensures SlotMoves(st, step, Next(st, step), i)
  {
    hide FreeSlot;
  }

  ghost predicate Born(st: State, step: Step, q: nat)
    requires Happens(st, step)
  {
    Forks(st, step) && q == st.table[st.procs[step.p].pc.index].value.inc
  }

  /** Processes come by fork and go by Remove; only the one that takes the step moves on. */
  ghost predicate ProcMoves(st: State, step: Step, st': State, q: nat)
    requires Happens(st, step)
  {
    && (q in st'.procs <==> (q in st.procs && !(Removes(st, step) && q == step.p)) || Born(st, step, q))
    && (Born(st, step, q) ==> q !in st.procs && st'.procs[q].pc.User? && st'.procs[q].slot == st.table[st.procs[step.p].pc.index].value.processID)
    && (q in st.procs && q in st'.procs ==> st'.procs[q].slot == st.procs[q].slot && (q != step.p ==> st'.procs[q].pc == st.procs[q].pc))
  }

  lemma ProcStep(st: State, step: Step, q: nat)
    requires Happens(st, step) && (Born(st, step, q) ==> q !in st.procs)
    ensures ProcMoves(st, step, Next(st, step), q)
  {
    hide FreeSlot;
  }

  lemma ProcAfter(st: State, step: Step, q: nat)
    requires ProcInv(st) && Happens(st, step)
    ensures ProcMoves(st, step, Next(st, step), q)
  {
    hide FreeSlot, Next, Execs;
    ProcStep(st, step, q);
  }

  lemma TableKept(st: State, step: Step)
    requires TableInv(st) && Happens(st, step)
    ensures TableInv(Next(st, step))
  {
    var st' := Next(st, step);
    forall i | InTable(i)
      ensures |st'.table| == MaxProcess
      ensures Occupied(st', i) ==> st'.table[i].value.processID == i && st'.table[i].value.inc < st'.next
      ensures Occupied(st', i) && !Occupied(st, i) ==> Adds(st, step) && st'.table[i].value.inc == st.next && i == FreeSlot(st.table, 0)
      ensures Occupied(st', i) && Occupied(st, i) ==> st'.table[i].value.inc == st.table[i].value.inc < st.next
    {
      SlotAfter(st, step, i);
    }
    SlotAfter(st, step, 0);
    hide Next;
  }

  lemma HasAfter(st: State, step: Step, i: int, c: nat)
    requires TableInv(st) && ProcInv(st) && Happens(st, step)
    ensures var st' := Next(st, step);
            && (Has(st', i, c) <==> (Has(st, i, c) && !(Removes(st, step) && c == step.p)) || (Adds(st, step) && i == FreeSlot(st.table, 0) && c == st.next))
            && (Has(st', i, c) && Has(st, i, c) ==> st'.table[i].value.parentID == st.table[i].value.parentID)
  {
    hide Next, FreeSlot;
    assert Has(st, st.procs[step.p].slot, step.p);
    if InTable(i) {
      SlotAfter(st, step, i);
      assert Has(st, i, c) && c == step.p ==> Occupied(st, i) && Occupied(st, st.procs[step.p].slot);
    }
  }

  /** Two live processes are never in one slot. */
  lemma SlotsApart(st: State, p: nat, q: nat)
    requires ProcInv(st) && p in st.procs && q in st.procs && st.procs[p].slot == st.procs[q].slot
    ensures p == q
  {
    assert Has(st, st.procs[p].slot, p) && Has(st, st.procs[q].slot, q);
  }

  lemma LiveKept(st: State, step: Step, q: nat)
    requires TableInv(st) && ProcInv(st) && Happens(st, step) && q in Next(st, step).procs
    ensures Has(Next(st, step), Next(st, step).procs[q].slot, q) && q < Next(st, step).next
  {
    hide FreeSlot;
    ProcAfter(st, step, q);
    if q in st.procs { assert Has(st, st.procs[q].slot, q) && Occupied(st, st.procs[q].slot); }
    if Forks(st, step) { assert Occupied(st, st.procs[step.p].pc.index); }
    var st' := Next(st, step);
    HasAfter(st, step, st'.procs[q].slot, q);
    SlotAfter(st, step, 0);
  }

  lemma ExecsAfter(st: State, step: Step, q: nat)
    requires ProcInv(st) && Happens(st, step)
    ensures var st' := Next(st, step);
            Execs(st', q) <==> if q == step.p then q in st'.procs && InExec(st'.procs[q].pc) else Execs(st, q)
  {
    hide Next, FreeSlot;
    ProcAfter(st, step, q);
  }

  /** What the step does to bmsem, and to whether its process is between P and V of it. */
  lemma BmsemAfter(st: State, step: Step)
    requires Happens(st, step) && !Removes(st, step)
    ensures var st' := Next(st, step);
            && step.p in st'.procs
            && match (Execs(st, step.p), Execs(st', step.p))
               case (false, true) => st.bmsem > 0 && st'.bmsem == st.bmsem - 1
               case (true, false) => st'.bmsem == st.bmsem + 1
               case _ => st'.bmsem == st.bmsem
  {
    hide FreeSlot;
  }

  lemma BmsemKept(st: State, step: Step)
    requires ProcInv(st) && Happens(st, step)
    ensures var st' := Next(st, step);
            && (st'.bmsem == 0 || st'.bmsem == 1)
            && (forall p :: Execs(st', p) ==> st'.bmsem == 0)
            && ((forall p :: !Execs(st', p)) ==> st'.bmsem == 1)
            && (forall p, q :: Execs(st', p) && Execs(st', q) ==> p == q)
  {
    var st' := Next(st, step);
    forall q | q != step.p ensures Execs(st', q) == Execs(st, q) { ExecsAfter(st, step, q); }
    if !Removes(st, step) {
      BmsemAfter(st, step);
      hide Next, Execs;
    }
  }

  lemma LiveBelow(st: State, q: nat)
    requires TableInv(st) && ProcInv(st) && q in st.procs
    ensures q < st.next
  {
    assert Has(st, st.procs[q].slot, q) && Occupied(st, st.procs[q].slot);
  }

  lemma ForkingNew(st: State, step: Step)
    requires TableInv(st) && ProcInv(st) && Happens(st, step) && Adds(st, step)
    ensures var st', index := Next(st, step), FreeSlot(st.table, 0);
            Occupied(st', index) && st'.table[index].value.inc !in st'.procs
  {
    hide Next, FreeSlot;
    SlotAfter(st, step, FreeSlot(st.table, 0));
    ProcAfter(st, step, st.next);
    if st.next in st.procs { LiveBelow(st, st.next); }
  }

  lemma ForkingOld(st: State, step: Step, q: nat)
    requires TableInv(st) && ProcInv(st) && Happens(st, step) && q != step.p
    requires q in st.procs && q in Next(st, step).procs && st.procs[q].pc.ExecFork?
    ensures var st', index := Next(st, step), st.procs[q].pc.index;
            Occupied(st', index) && st'.table[index].value.inc !in st'.procs
  {
    hide Next, FreeSlot;
    var index := st.procs[q].pc.index;
    var inc := st.table[index].value.inc;
    assert Execs(st, q) && Has(st, index, inc);
    assert InExec(st.procs[step.p].pc) ==> Execs(st, step.p);
    HasAfter(st, step, index, inc);
    ProcAfter(st, step, inc);
  }

  lemma ForksAt(st: State, step: Step)
    requires Happens(st, step) && step.p in Next(st, step).procs && Next(st, step).procs[step.p].pc.ExecFork? && !Forks(st, step)
    ensures Adds(st, step) && Next(st, step).procs[step.p].pc.index == FreeSlot(st.table, 0)
  {
    hide FreeSlot;
  }

  lemma ForkingKept(st: State, step: Step, q: nat)
    requires TableInv(st) && ProcInv(st) && Happens(st, step)
    requires q in Next(st, step).procs && Next(st, step).procs[q].pc.ExecFork?
    ensures var st', index := Next(st, step), Next(st, step).procs[q].pc.index;
            Occupied(st', index) && st'.table[index].value.inc !in st'.procs
  {
    ProcAfter(st, step, q);
    if q != step.p {
      hide Next, FreeSlot;
      ForkingOld(st, step, q);
    } else if !Forks(st, step) {
      hide Next, FreeSlot;
      ForksAt(st, step);
      ForkingNew(st, step);
    } else {
      LeavesFork(st, step);
    }
  }

  lemma LeavesFork(st: State, step: Step)
    requires Happens(st, step) && Forks(st, step)
    ensures step.p in Next(st, step).procs && Next(st, step).procs[step.p].pc.ExecLeave?
  {
  }

  lemma ProcKept(st: State, step: Step)
    requires TableInv(st) && ProcInv(st) && Happens(st, step)
    ensures ProcInv(Next(st, step))
  {
    var st' := Next(st, step);
    forall q | q in st'.procs ensures Has(st', st'.procs[q].slot, q) { LiveKept(st, step, q); }
    forall q | q in st'.procs && st'.procs[q].pc.ExecFork?
      ensures Occupied(st', st'.procs[q].pc.index) && st'.table[st'.procs[q].pc.index].value.inc !in st'.procs
    {
      ForkingKept(st, step, q);
    }
    BmsemKept(st, step);
    hide Next;
  }

  // The semaphores.

  ghost predicate SemStep(st: State, step: Step) {
    step.StartExit? ||
    (step.Go? && step.p in st.procs &&
     match st.procs[step.p].pc
     case JoinWait(_, _) | JoinFree(_, _, _) | ExitJoin | ExitWait => true
     case _ => false)
  }

  /** Nothing the semaphores have to agree with changes in the other steps. */
  lemma QuietHistory(st: State, step: Step)
    requires Happens(st, step) && !SemStep(st, step)
    ensures var st' := Next(st, step);
            st'.codes == st.codes && st'.passed == st.passed && st'.released == st.released
  {
    hide FreeSlot;
  }

  lemma QuietSlot(st: State, step: Step, i: int)
    requires Happens(st, step) && InTable(i) && !SemStep(st, step)
    ensures var st' := Next(st, step);
            && |st'.table| == MaxProcess
            && (st'.table[i] == st.table[i] || st'.table[i].None? || (Adds(st, step) && i == FreeSlot(st.table, 0)))
  {
    hide FreeSlot;
  }

  lemma QuietExit(st: State, step: Step)
    requires Happens(st, step) && !SemStep(st, step) && step.p in Next(st, step).procs
    ensures Exiting(Next(st, step), step.p) == Exiting(st, step.p) && HasCode(Next(st, step), step.p) == HasCode(st, step.p)
    ensures Removing(Next(st, step), step.p) == Removing(st, step.p)
  {
    hide FreeSlot;
  }

  lemma QuietExiting(st: State, step: Step, c: nat)
    requires ProcInv(st) && Happens(st, step) && !SemStep(st, step)
    ensures var st' := Next(st, step);
            && (Exiting(st', c) ==> Exiting(st, c)) && (HasCode(st', c) ==> HasCode(st, c))
            && (Removing(st', c) ==> Removing(st, c))
            && (c in st'.procs ==> (Exiting(st, c) ==> Exiting(st', c)) && (Removing(st, c) ==> Removing(st', c)))
            && (c !in st'.procs ==> c !in st.procs || (Removes(st, step) && c == step.p))
  {
    hide Next, FreeSlot;
    ProcAfter(st, step, c);
    if c == step.p && c in Next(st, step).procs { QuietExit(st, step); }
  }

  lemma QuietBlock(st: State, step: Step, i: int)
    requires TableInv(st) && ProcInv(st) && SemInv(st) && Happens(st, step) && !SemStep(st, step) && Occupied(Next(st, step), i)
    ensures BlockInv(Next(st, step), i)
  {
    hide Next, FreeSlot;
    var c := Next(st, step).table[i].value.inc;
    QuietSlot(st, step, i);
    QuietHistory(st, step);
    QuietExiting(st, step, c);
    if c in st.procs { LiveBelow(st, c); }
    SlotAfter(st, step, i);
    HasAfter(st, step, i, c);
    assert Occupied(st, i) ==> BlockInv(st, i);
  }

  lemma QuietSems(st: State, step: Step)
    requires TableInv(st) && ProcInv(st) && SemInv(st) && Happens(st, step) && !SemStep(st, step)
    ensures SemInv(Next(st, step))
  {
    hide Next, FreeSlot, BlockInv;
    var st' := Next(st, step);
    forall i | Occupied(st', i) ensures BlockInv(st', i) { QuietBlock(st, step, i); }
    QuietHistory(st, step);
    SlotAfter(st, step, 0);
    forall c ensures Removing(st', c) ==> Removing(st, c) { QuietExiting(st, step, c); }
  }

  // The five steps that use the semaphores, one by one.

  /** The block of a live process. */
  lemma OwnBlock(st: State, p: nat)
    requires TableInv(st) && ProcInv(st) && SemInv(st) && p in st.procs
    ensures Occupied(st, st.procs[p].slot) && st.table[st.procs[p].slot].value.inc == p && BlockInv(st, st.procs[p].slot)
    ensures forall i :: Occupied(st, i) && st.table[i].value.inc == p ==> i == st.procs[p].slot
  {
    assert Has(st, st.procs[p].slot, p);
    assert Occupied(st, st.procs[p].slot);
  }

  lemma StartExitBlock(st: State, p: nat, code: int, i: int)
    requires Happens(st, StartExit(p, code)) && Occupied(st, i) && BlockInv(st, i)
    requires st.table[i].value.inc == p ==> i == st.procs[p].slot
    ensures Occupied(Next(st, StartExit(p, code)), i) && BlockInv(Next(st, StartExit(p, code)), i)
  {
  }

  lemma StartExitSems(st: State, p: nat, code: int)
    requires TableInv(st) && ProcInv(st) && SemInv(st) && Happens(st, StartExit(p, code))
    ensures SemInv(Next(st, StartExit(p, code)))
  {
    var st' := Next(st, StartExit(p, code));
    OwnBlock(st, p);
    hide BlockInv, ProcInv, TableInv;
    forall i | Occupied(st', i) ensures BlockInv(st', i) { assert Occupied(st, i) && BlockInv(st, i); StartExitBlock(st, p, code, i); }
  }

  lemma ExitJoinBlock(st: State, p: nat, i: int)
    requires Happens(st, Go(p)) && st.procs[p].pc.ExitJoin? && Occupied(st, i) && BlockInv(st, i)
    requires Occupied(st, st.procs[p].slot) && st.table[st.procs[p].slot].value.inc == p && (st.table[i].value.inc == p ==> i == st.procs[p].slot)
    ensures Occupied(Next(st, Go(p)), i) && BlockInv(Next(st, Go(p)), i)
  {
  }

  lemma ExitJoinSems(st: State, p: nat)
    requires TableInv(st) && ProcInv(st) && SemInv(st) && Happens(st, Go(p)) && st.procs[p].pc.ExitJoin?
    ensures SemInv(Next(st, Go(p)))
  {
    var st' := Next(st, Go(p));
    OwnBlock(st, p);
    hide ProcInv, TableInv;
    assert BlockInv(st, st.procs[p].slot);
    assert st.procs[p].pc.ExitWait? ==> p in st.released;
    hide BlockInv;
    forall i | Occupied(st', i) ensures BlockInv(st', i) { assert Occupied(st, i) && BlockInv(st, i); ExitJoinBlock(st, p, i); }
  }

  lemma ExitWaitBlock(st: State, p: nat, i: int)
    requires Happens(st, Go(p)) && st.procs[p].pc.ExitWait? && Occupied(st, i) && BlockInv(st, i)
    requires Occupied(st, st.procs[p].slot) && st.table[st.procs[p].slot].value.inc == p && (st.table[i].value.inc == p ==> i == st.procs[p].slot)
    ensures Occupied(Next(st, Go(p)), i) && BlockInv(Next(st, Go(p)), i)
  {
  }

  lemma ExitWaitSems(st: State, p: nat)
    requires TableInv(st) && ProcInv(st) && SemInv(st) && Happens(st, Go(p)) && st.procs[p].pc.ExitWait?
    ensures SemInv(Next(st, Go(p)))
  {
    var st' := Next(st, Go(p));
    OwnBlock(st, p);
    hide ProcInv, TableInv;
    assert BlockInv(st, st.procs[p].slot);
    assert st.procs[p].pc.ExitWait? ==> p in st.released;
    hide BlockInv;
    forall i | Occupied(st', i) ensures BlockInv(st', i) { assert Occupied(st, i) && BlockInv(st, i); ExitWaitBlock(st, p, i); }
  }

  lemma JoinWaitBlock(st: State, p: nat, i: int)
    requires TableInv(st) && Happens(st, Go(p)) && st.procs[p].pc.JoinWait? && Occupied(st, i) && BlockInv(st, i)
    ensures Occupied(Next(st, Go(p)), i) && BlockInv(Next(st, Go(p)), i)
  {
    assert Occupied(st, st.procs[p].pc.j.id);
  }

  lemma JoinWaitSems(st: State, p: nat)
    requires TableInv(st) && ProcInv(st) && SemInv(st) && Happens(st, Go(p)) && st.procs[p].pc.JoinWait?
    ensures SemInv(Next(st, Go(p)))
  {
    var st', id := Next(st, Go(p)), st.procs[p].pc.j.id;
    assert Occupied(st, id) && BlockInv(st, id);
    var on := st.procs[p].pc.on;
    assert Exiting(st, on) && on in st.codes;
    hide BlockInv, ProcInv;
    forall i | Occupied(st', i) ensures BlockInv(st', i) { assert Occupied(st, i) && BlockInv(st, i); JoinWaitBlock(st, p, i); }
  }

  lemma JoinFreeBlock(st: State, p: nat, i: int)
    requires TableInv(st) && Happens(st, Go(p)) && st.procs[p].pc.JoinFree? && Occupied(st, i) && BlockInv(st, i)
    requires var c := st.table[st.procs[p].pc.j.id].value.inc; c !in st.released && !Removing(st, c)
    ensures Occupied(Next(st, Go(p)), i) && BlockInv(Next(st, Go(p)), i)
  {
    assert Occupied(st, st.procs[p].pc.j.id);
  }

  lemma JoinFreeSems(st: State, p: nat)
    requires TableInv(st) && ProcInv(st) && SemInv(st) && JoinInv(st) && Happens(st, Go(p)) && st.procs[p].pc.JoinFree?
    ensures SemInv(Next(st, Go(p)))
  {
    var st' := Next(st, Go(p));
    assert Joins(st, p) && PastInv(st, p);
    hide JoinInv, BlockInv, ProcInv;
    forall i | Occupied(st', i) ensures BlockInv(st', i) { assert Occupied(st, i) && BlockInv(st, i); JoinFreeBlock(st, p, i); }
  }

  lemma SemKept(st: State, step: Step)
    requires TableInv(st) && ProcInv(st) && SemInv(st) && JoinInv(st) && Happens(st, step)
    ensures SemInv(Next(st, step))
  {
    hide TableInv, ProcInv, SemInv, JoinInv, Next;
    if !SemStep(st, step) { QuietSems(st, step); }
    else if step.StartExit? { StartExitSems(st, step.p, step.code); }
    else {
      match st.procs[step.p].pc
      case JoinWait(_, _) => JoinWaitSems(st, step.p);
      case JoinFree(_, _, _) => JoinFreeSems(st, step.p);
      case ExitJoin => ExitJoinSems(st, step.p);
      case ExitWait => ExitWaitSems(st, step.p);
    }
  }

  // The Joins.

  /** What is history stays so. */
  lemma HistoryGrows(st: State, step: Step)
    requires Happens(st, step)
    ensures var st' := Next(st, step);
            && (forall c :: c in st.passed ==> c in st'.passed)
            && (forall c :: c in st'.passed && c !in st.passed ==> step.Go? && IsWaitOn(st, step.p, c))
            && (forall c :: c in st.released ==> c in st'.released)
            && (forall c :: c in st'.released && c !in st.released ==> step.Go? && Frees(st, step.p, c))
            && (forall c :: c in st.codes ==> c in st'.codes && (st'.codes[c] == st.codes[c] || (step.StartExit? && c == step.p)))
            && (st'.returned == st.returned || (step.Go? && IsFree(st, step.p) && st'.returned == st.returned + [RecordOf(st, step.p)]))
  {
    hide FreeSlot;
  }

  ghost predicate IsWaitOn(st: State, p: nat, on: nat) { p in st.procs && st.procs[p].pc.JoinWait? && st.procs[p].pc.on == on }

  ghost predicate IsFree(st: State, p: nat) { p in st.procs && st.procs[p].pc.JoinFree? }

  ghost predicate Frees(st: State, p: nat, c: nat) { IsFree(st, p) && Has(st, st.procs[p].pc.j.id, c) }

  ghost function RecordOf(st: State, p: nat): Record
    requires IsFree(st, p)
  {
    Record(st.procs[p].pc.j, st.procs[p].pc.on, st.procs[p].pc.code)
  }

  /** Exit codes of the incarnations that have been joined do not change any more. */
  lemma CodesSettled(st: State, step: Step, c: nat)
    requires TableInv(st) && ProcInv(st) && SemInv(st) && Happens(st, step) && c in st.passed
    ensures c in st.codes && c in Next(st, step).codes && Next(st, step).codes[c] == st.codes[c]
  {
    hide Next, FreeSlot, JoinInv;
    HistoryGrows(st, step);
    if step.StartExit? && c == step.p { OwnBlock(st, c); }
  }

  lemma OthersJoin(st: State, step: Step, q: nat)
    requires TableInv(st) && ProcInv(st) && SemInv(st) && JoinInv(st) && Happens(st, step)
    requires q != step.p && Joins(Next(st, step), q)
    ensures Joins(st, q) && Next(st, step).procs[q] == st.procs[q].(name := Next(st, step).procs[q].name) && PastInv(Next(st, step), q)
  {
    hide Next, FreeSlot, BlockInv;
    ProcAfter(st, step, q);
    HistoryGrows(st, step);
    assert Joins(st, q) && PastInv(st, q);
    var pc := st.procs[q].pc;
    if pc.JoinRead? || pc.JoinFree? {
      assert Past(st, q, pc.on);
      CodesSettled(st, step, pc.on);
      HasAfter(st, step, pc.j.id, pc.on);
      if Frees(st, step.p, pc.on) { OnlyFreer(st, step.p, q, pc.on); }
    }
  }

  /** Nobody else lets go the incarnation a Join is past. */
  lemma OnlyFreer(st: State, p: nat, q: nat, on: nat)
    requires JoinInv(st) && Frees(st, p, on) && Past(st, q, on)
    ensures p == q
  {
    assert Joins(st, p) && PastInv(st, p);
    assert Past(st, p, on);
  }

  /** A Join can pass only the joinsem of an incarnation that no Join has passed or let go. */
  lemma PassesOnce(st: State, p: nat)
    requires TableInv(st) && ProcInv(st) && SemInv(st) && Happens(st, Go(p)) && st.procs[p].pc.JoinWait?
    ensures var on := st.procs[p].pc.on; on !in st.passed && on !in st.released && Exiting(st, on)
  {
    var id := st.procs[p].pc.j.id;
    assert Occupied(st, id) && BlockInv(st, id);
  }

  /** The steps after which a process is in Join. */
  lemma JoinSteps(st: State, step: Step)
    requires Happens(st, step) && Joins(Next(st, step), step.p)
    ensures step.StartJoin? || (step.Go? && (st.procs[step.p].pc.JoinEnter? || st.procs[step.p].pc.JoinWait? || st.procs[step.p].pc.JoinRead?))
  {
    hide FreeSlot;
  }

  lemma PassJoin(st: State, p: nat)
    requires TableInv(st) && ProcInv(st) && SemInv(st) && JoinInv(st) && Happens(st, Go(p)) && st.procs[p].pc.JoinWait?
    ensures PastInv(Next(st, Go(p)), p)
  {
    assert Joins(st, p) && PastInv(st, p);
    PassesOnce(st, p);
    hide TableInv, ProcInv, JoinInv, BlockInv;
  }

  lemma OwnJoin(st: State, step: Step)
    requires TableInv(st) && ProcInv(st) && SemInv(st) && JoinInv(st) && Happens(st, step) && Joins(Next(st, step), step.p)
    ensures PastInv(Next(st, step), step.p)
  {
    hide FreeSlot, TableInv, ProcInv, SemInv;
    JoinSteps(st, step);
    if step.Go? {
      assert Joins(st, step.p) && PastInv(st, step.p);
      if st.procs[step.p].pc.JoinWait? { PassJoin(st, step.p); }
      else if st.procs[step.p].pc.JoinRead? { ReadsCode(st, step.p); }
    }
  }

  lemma ReadsCode(st: State, p: nat)
    requires SemInv(st) && JoinInv(st) && Happens(st, Go(p)) && st.procs[p].pc.JoinRead?
    ensures var on := st.procs[p].pc.on; on in st.codes && st.table[st.procs[p].pc.j.id].value.exitcode == st.codes[on]
  {
    assert Joins(st, p) && PastInv(st, p);
    assert Occupied(st, st.procs[p].pc.j.id) && BlockInv(st, st.procs[p].pc.j.id);
  }

  /** Who is past an incarnation's joinsem after a step: who was, or who has just passed it. */
  lemma PastAfter(st: State, step: Step, q: nat, on: nat)
    requires ProcInv(st) && Happens(st, step) && Past(Next(st, step), q, on)
    ensures Past(st, q, on) || (step == Go(q) && IsWaitOn(st, q, on))
  {
    ProcAfter(st, step, q);
    hide FreeSlot, ProcInv;
  }

  lemma OnePast(st: State, step: Step, q: nat, r: nat, on: nat)
    requires TableInv(st) && ProcInv(st) && SemInv(st) && JoinInv(st) && Happens(st, step)
    requires Past(Next(st, step), q, on) && Past(Next(st, step), r, on)
    ensures q == r
  {
    hide Next, FreeSlot, BlockInv;
    PastAfter(st, step, q, on);
    PastAfter(st, step, r, on);
    if Past(st, q, on) { assert Joins(st, q) && PastInv(st, q); }
    if Past(st, r, on) { assert Joins(st, r) && PastInv(st, r); }
    if step.Go? && IsWaitOn(st, step.p, on) { PassesOnce(st, step.p); }
  }

  lemma JoinKept(st: State, step: Step)
    requires TableInv(st) && ProcInv(st) && SemInv(st) && JoinInv(st) && Happens(st, step)
    ensures JoinInv(Next(st, step))
  {
    hide Next, TableInv, ProcInv, SemInv, PastInv, Past;
    var st' := Next(st, step);
    forall q | Joins(st', q) ensures PastInv(st', q) {
      if q == step.p { OwnJoin(st, step); } else { OthersJoin(st, step, q); }
    }
    forall q, r, on | Past(st', q, on) && Past(st', r, on) ensures q == r { OnePast(st, step, q, r, on); }
  }

  lemma ReturnKept(st: State, step: Step)
    requires Inv(st) && Happens(st, step)
    ensures ReturnInv(Next(st, step))
  {
    hide Next, TableInv, ProcInv, SemInv;
    var st' := Next(st, step);
    HistoryGrows(st, step);
    forall k | 0 <= k < |st'.returned| ensures RecordInv(st', st'.returned[k]) {
      if k < |st.returned| {
        assert st'.returned[k] == st.returned[k] && RecordInv(st, st.returned[k]);
        CodesSettled(st, step, st.returned[k].on);
      } else {
        assert Joins(st, step.p) && PastInv(st, step.p);
        CodesSettled(st, step, st.procs[step.p].pc.on);
      }
    }
  }

  /** Every step keeps the invariant. */
  lemma NextKeepsInv(st: State, step: Step)
    requires Inv(st) && Happens(st, step)
    ensures Inv(Next(st, step))
  {
    hide TableInv, ProcInv, SemInv, JoinInv, ReturnInv, Next;
    TableKept(st, step);
    ProcKept(st, step);
    SemKept(st, step);
    JoinKept(st, step);
    ReturnKept(st, step);
  }

  lemma OpenKept(st: State, step: Step)
    requires Inv(st) && OpenInv(st) && Happens(st, step)
    ensures OpenInv(Next(st, step))
  {
    var st' := Next(st, step);
    hide TableInv, SemInv, ReturnInv, FreeSlot;
    HistoryGrows(st, step);
    forall c | c in st'.passed && c !in st'.released ensures exists q :: Past(st', q, c) {
      if c in st.passed {
        var q :| Past(st, q, c);
        PastStays(st, step, q, c);
      } else {
        assert Past(st', step.p, c);
      }
    }
  }

  lemma PastStays(st: State, step: Step, q: nat, c: nat)
    requires ProcInv(st) && JoinInv(st) && Happens(st, step) && Past(st, q, c) && c !in Next(st, step).released
    ensures Past(Next(st, step), q, c)
  {
    ProcAfter(st, step, q);
    assert Joins(st, q) && PastInv(st, q);
    hide ProcInv, JoinInv, FreeSlot;
  }

  // As long as nobody joins twice.

  /** In a clean state a process's Join is the only one on its incarnation. */
  lemma CleanAlone(st: State, p: nat, q: nat)
    requires TableInv(st) && ProcInv(st) && CleanInv(st) && st.clean
    requires Joins(st, p) && Joins(st, q) && st.procs[p].pc.j.inc == st.procs[q].pc.j.inc
    ensures p == q
  {
    assert CleanJoin(st, p) && CleanJoin(st, q);
    assert Occupied(st, st.procs[p].pc.j.id) && Occupied(st, st.procs[q].pc.j.id);
    SlotsApart(st, p, q);
  }

  lemma CleanOthers(st: State, step: Step, q: nat)
    requires Inv(st) && CleanInv(st) && st.clean && Happens(st, step) && q != step.p && Joins(Next(st, step), q)
    ensures CleanJoin(Next(st, step), q)
  {
    hide Next, FreeSlot, BlockInv, ReturnInv;
    OthersJoin(st, step, q);
    assert CleanJoin(st, q);
    var j := st.procs[q].pc.j;
    HistoryGrows(st, step);
    HasAfter(st, step, j.id, j.inc);
    if Removes(st, step) && j.inc == step.p {
      assert Joins(st, q) && PastInv(st, q);
    }
    if j.inc !in st.passed && j.inc in Next(st, step).passed {
      assert Joins(st, step.p) && CleanJoin(st, step.p);
      CleanAlone(st, step.p, q);
    }
  }

  /** A block that may be joined and has not been let go has not been passed either: the only one that
      could have passed it is the process about to join. */
  lemma NotYetPassed(st: State, p: nat, id: int)
    requires Inv(st) && CleanInv(st) && OpenInv(st) && st.clean && p in st.procs && st.procs[p].pc.User? && MayJoin(st, p, id)
    requires st.table[id].value.inc !in st.released
    ensures st.table[id].value.inc !in st.passed
  {
    hide SemInv, ReturnInv;
    var c := st.table[id].value.inc;
    if c in st.passed {
      var q :| Past(st, q, c);
      assert Joins(st, q) && PastInv(st, q) && CleanJoin(st, q);
      SameSlot(st, id, st.procs[q].pc.j.id, c);
      SlotsApart(st, p, q);
    }
  }

  lemma SameSlot(st: State, i: int, k: int, c: nat)
    requires TableInv(st) && Has(st, i, c) && Has(st, k, c)
    ensures i == k
  {
    assert Occupied(st, i) && Occupied(st, k);
  }

  lemma CleanOwn(st: State, step: Step)
    requires Inv(st) && CleanInv(st) && OpenInv(st) && Happens(st, step) && Next(st, step).clean && Joins(Next(st, step), step.p)
    ensures CleanJoin(Next(st, step), step.p)
  {
    hide FreeSlot, TableInv, ProcInv, SemInv, JoinInv, ReturnInv, OpenInv;
    JoinSteps(st, step);
    if step.Go? {
      assert Joins(st, step.p) && CleanJoin(st, step.p);
    } else {
      NotYetPassed(st, step.p, step.id);
    }
  }

  lemma CleanFlag(st: State, step: Step)
    requires Happens(st, step)
    ensures Next(st, step).clean <==> st.clean && !JoinsAgain(st, step)
  {
    hide FreeSlot;
  }

  /** A Join on an incarnation that has already been let go. */
  ghost predicate JoinsAgain(st: State, step: Step)
    requires Happens(st, step)
  {
    step.StartJoin? && MayJoin(st, step.p, step.id) && st.table[step.id].value.inc in st.released
  }

  lemma CleanKept(st: State, step: Step)
    requires Inv(st) && CleanInv(st) && OpenInv(st) && Happens(st, step)
    ensures CleanInv(Next(st, step))
  {
    hide Next, FreeSlot, TableInv, ProcInv, SemInv, JoinInv, ReturnInv, OpenInv;
    var st' := Next(st, step);
    CleanFlag(st, step);
    HistoryGrows(st, step);
    if st'.clean {
      forall q | Joins(st', q) ensures CleanJoin(st', q) {
        if q == step.p { CleanOwn(st, step); } else { CleanOthers(st, step, q); }
      }
      if st'.returned != st.returned { assert Joins(st, step.p) && CleanJoin(st, step.p); }
    }
  }

  lemma StrayMoves(st: State, step: Step)
    requires Happens(st, step) && StrayAt(st, step.p)
    ensures StrayAt(Next(st, step), step.p) || StrayReturned(Next(st, step), |st.returned|)
  {
    hide FreeSlot;
  }

  lemma StrayStarts(st: State, step: Step)
    requires Happens(st, step) && JoinsAgain(st, step)
    ensures StrayAt(Next(st, step), step.p)
  {
  }

  lemma StrayKept(st: State, step: Step)
    requires ProcInv(st) && StrayInv(st) && Happens(st, step)
    ensures StrayInv(Next(st, step))
  {
    hide Next, FreeSlot, ProcInv;
    var st' := Next(st, step);
    CleanFlag(st, step);
    HistoryGrows(st, step);
    if st.clean {
      if !st'.clean { StrayStarts(st, step); }
    } else if k :| StrayReturned(st, k) {
      assert StrayReturned(st', k);
    } else {
      var q :| StrayAt(st, q);
      ProcAfter(st, step, q);
      if q == step.p { StrayMoves(st, step); } else { assert StrayAt(st', q); }
    }
  }

  ghost predicate ReturnedFor(st: State, c: nat) { exists k :: 0 <= k < |st.returned| && st.returned[k].on == c }

  /** Let go means joined: the incarnations let go are those some Join has returned the code of. */
  ghost predicate ReleasedInv(st: State) {
    forall c :: c in st.released <==> ReturnedFor(st, c)
  }

  lemma ReleaseStep(st: State, step: Step)
    requires JoinInv(st) && Happens(st, step)
    ensures var st' := Next(st, step);
            if step.Go? && IsFree(st, step.p) then
              st'.released == st.released + {st.procs[step.p].pc.on} && st'.returned == st.returned + [RecordOf(st, step.p)]
            else st'.released == st.released && st'.returned == st.returned
  {
    hide FreeSlot;
    if step.Go? && IsFree(st, step.p) { assert Joins(st, step.p) && PastInv(st, step.p); }
    hide JoinInv;
  }

  lemma ReleasedKept(st: State, step: Step)
    requires JoinInv(st) && ReleasedInv(st) && Happens(st, step)
    ensures ReleasedInv(Next(st, step))
  {
    hide Next, JoinInv, FreeSlot;
    ReleaseStep(st, step);
    var st' := Next(st, step);
    forall c ensures c in st'.released <==> ReturnedFor(st', c) {
      if ReturnedFor(st, c) {
        var k :| 0 <= k < |st.returned| && st.returned[k].on == c;
        assert st'.returned[k] == st.returned[k];
      }
      if step.Go? && IsFree(st, step.p) { assert st'.returned[|st.returned|] == RecordOf(st, step.p); }
    }
  }

  /** Everything the theorems need. */
  ghost predicate Good(st: State) { Inv(st) && CleanInv(st) && OpenInv(st) && StrayInv(st) && ReleasedInv(st) }

  lemma NextKeepsGood(st: State, step: Step)
    requires Good(st) && Happens(st, step)
    ensures Good(Next(st, step))
  {
    hide Next, Inv, CleanInv, OpenInv, StrayInv, ReleasedInv;
    NextKeepsInv(st, step);
    CleanKept(st, step);
    OpenKept(st, step);
    InvParts(st);
    StrayKept(st, step);
    ReleasedKept(st, step);
  }

  lemma InvParts(st: State)
    requires Inv(st)
    ensures TableInv(st) && ProcInv(st) && JoinInv(st)
  {
    hide TableInv, ProcInv, JoinInv;
  }

  ghost predicate Becomes(st: State, step: Step, st': State) { Happens(st, step) && st' == Next(st, step) }

  // Whole runs.

  /** A run from one state to another. */
  ghost predicate Leads(st: State, steps: seq<Step>, st': State)
    decreases |steps|
  {
    if steps == [] then st == st'
    else Happens(st, steps[0]) && Leads(Next(st, steps[0]), steps[1..], st')
  }

  /** After boot there is only the main process. */
  ghost function Boot(name: string): State {
    State([Some(Pcb(0, 0, -1, 0, 0, 0))] + seq(MaxProcess - 1, i => None), map[0 := Process(0, name, User)], 1, 1, map[], {}, {}, [], true)
  }

  lemma BootGood(name: string)
    ensures Good(Boot(name))
  {
    var st := Boot(name);
    assert forall i :: Occupied(st, i) ==> i == 0;
    assert forall p :: !Joins(st, p);
  }

  lemma {:induction false} RunsKeepGood(st: State, steps: seq<Step>, st': State)
    requires Good(st) && Leads(st, steps, st')
    ensures Good(st')
    decreases |steps|
  {
    hide Good, Next;
    if steps != [] {
      NextKeepsGood(st, steps[0]);
      RunsKeepGood(Next(st, steps[0]), steps[1..], st');
    }
  }

  /** In every interleaving: occupied slot i has process id i; a Join that is past its wait finds the
      block it waited for still in its slot; and what a Join returns is the argument of the one Exit that
      the incarnation it waited for has called. */
  lemma ProcessIds(name: string, steps: seq<Step>, st: State, i: int, p: nat, k: int)
    requires Leads(Boot(name), steps, st)
    ensures Occupied(st, i) ==> st.table[i].value.processID == i
    ensures p in st.released <==> ReturnedFor(st, p)
    ensures p in st.procs && (st.procs[p].pc.JoinRead? || st.procs[p].pc.JoinFree?) ==> Has(st, st.procs[p].pc.j.id, st.procs[p].pc.on)
    ensures 0 <= k < |st.returned| ==> exists e :: OnlyExit(steps, |steps|, st.returned[k].on, e) && steps[e].code == st.returned[k].code
  {
    BootGood(name);
    RunsKeepGood(Boot(name), steps, st);
    assert Joins(st, p) ==> PastInv(st, p);
    if 0 <= k < |st.returned| {
      hide Good, Boot;
      var states := Trace(Boot(name), steps, st);
      var q, i, m, e := ReturnedCodes(states, steps, |steps|, k);
    }
  }

  ghost predicate AllRight(st: State) {
    forall k :: 0 <= k < |st.returned| ==> st.returned[k].on == st.returned[k].j.inc
  }

  /** Joins return the code of the incarnation they checked exactly when no Join was started on a
      process that had already been joined: for every run at whose end no Join is under way, and,
      towards the right answer, for every run. */
  lemma JoinRightIff(name: string, steps: seq<Step>, st: State)
    requires Leads(Boot(name), steps, st)
    ensures NeverJoinsAgain(Boot(name), steps, st) ==> AllRight(st)
    ensures (forall p :: !Joins(st, p)) ==> (NeverJoinsAgain(Boot(name), steps, st) <==> AllRight(st))
  {
    CleanMeans(Boot(name), steps, st);
    BootGood(name);
    RunsKeepGood(Boot(name), steps, st);
    hide TableInv, ProcInv, SemInv, JoinInv, OpenInv;
    if (forall p :: !Joins(st, p)) && !st.clean {
      var k :| StrayReturned(st, k);
      assert RecordInv(st, st.returned[k]);
    }
  }

  /** No null pointer is followed in a run in which nobody joins again. */
  lemma CleanRunsAreSafe(name: string, steps: seq<Step>, st: State, next: Step)
    requires Leads(Boot(name), steps, st) && NeverJoinsAgain(Boot(name), steps, st) && Enabled(st, next)
    ensures Asserted(st, next)
  {
    CleanMeans(Boot(name), steps, st);
    BootGood(name);
    RunsKeepGood(Boot(name), steps, st);
    GoodAsserts(st, next);
  }

  lemma GoodAsserts(st: State, next: Step)
    requires Good(st) && st.clean && Enabled(st, next)
    ensures Asserted(st, next)
  {
    hide SemInv, ReturnInv, OpenInv, StrayInv, ReleasedInv, TableInv;
    var p := next.p;
    assert Joins(st, p) ==> PastInv(st, p) && CleanJoin(st, p);
    assert Has(st, st.procs[p].slot, p);
  }

  /** No step of the run starts a Join on an incarnation that has already been let go. */
  ghost predicate NeverJoinsAgain(st: State, steps: seq<Step>, st': State)
    requires Leads(st, steps, st')
    decreases |steps|
  {
    steps == [] || (!JoinsAgain(st, steps[0]) && NeverJoinsAgain(Next(st, steps[0]), steps[1..], st'))
  }

  lemma {:induction false} CleanMeans(st: State, steps: seq<Step>, st': State)
    requires Leads(st, steps, st')
    ensures st'.clean <==> st.clean && NeverJoinsAgain(st, steps, st')
    decreases |steps|
  {
    hide Next;
    if steps != [] {
      CleanFlag(st, steps[0]);
      CleanMeans(Next(st, steps[0]), steps[1..], st');
    }
  }

  // What the calls were given and gave back, read off the steps.

  ghost predicate IsRun(states: seq<State>, steps: seq<Step>) {
    && |states| == |steps| + 1
    && forall i :: 0 <= i < |steps| ==> Becomes(states[i], steps[i], states[i + 1])
  }

  /** The states a run goes through. */
  lemma {:induction false} Trace(st: State, steps: seq<Step>, st': State) returns (states: seq<State>)
    requires Leads(st, steps, st')
    ensures IsRun(states, steps) && states[0] == st && states[|steps|] == st'
    decreases |steps|
  {
    hide Next;
    if steps == [] {
      states := [st];
    } else {
      var rest := Trace(Next(st, steps[0]), steps[1..], st');
      states := [st] + rest;
      forall i | 0 <= i < |steps| ensures Becomes(states[i], steps[i], states[i + 1]) {
        if i > 0 { assert Becomes(rest[i - 1], steps[1..][i - 1], rest[i]); }
      }
    }
  }

  /** Only a process that has called Exit has a code, and one that has does not call it again. */
  ghost predicate CodesInv(st: State) {
    && (forall c :: c in st.codes ==> c < st.next && (c in st.procs ==> HasCode(st, c)))
    && (forall p :: Forking(st, p) ==> ForkedBlock(st, p).inc !in st.codes)
  }

  ghost function ForkedBlock(st: State, p: nat): Pcb
    requires Forking(st, p)
  {
    st.table[st.procs[p].pc.index].value
  }

  ghost predicate Forking(st: State, p: nat) { p in st.procs && st.procs[p].pc.ExecFork? && Occupied(st, st.procs[p].pc.index) }

  lemma CodesStep(st: State, step: Step)
    requires Happens(st, step)
    ensures Next(st, step).codes == if step.StartExit? then st.codes[step.p := step.code] else st.codes
  {
    hide FreeSlot;
  }

  lemma ExitGoesOn(st: State, step: Step)
    requires Happens(st, step) && step.p in Next(st, step).procs && (HasCode(st, step.p) || step.StartExit?)
    ensures HasCode(Next(st, step), step.p)
  {
    hide FreeSlot;
  }

  lemma CodeKept(st: State, step: Step, c: nat)
    requires Inv(st) && CodesInv(st) && Happens(st, step) && c in Next(st, step).codes
    ensures c < Next(st, step).next && (c in Next(st, step).procs ==> HasCode(Next(st, step), c))
  {
    hide Next, FreeSlot, SemInv, JoinInv, ReturnInv;
    CodesStep(st, step);
    SlotAfter(st, step, 0);
    ProcAfter(st, step, c);
    LiveBelow(st, step.p);
    if c == step.p && c in Next(st, step).procs { ExitGoesOn(st, step); }
    if Forks(st, step) { assert Forking(st, step.p); }
  }

  lemma ForkedHasNoCode(st: State, step: Step, q: nat)
    requires Inv(st) && CodesInv(st) && Happens(st, step) && Forking(Next(st, step), q)
    ensures ForkedBlock(Next(st, step), q).inc !in Next(st, step).codes
  {
    hide Next, FreeSlot, SemInv, JoinInv, ReturnInv;
    CodesStep(st, step);
    ProcAfter(st, step, q);
    if q == step.p && !Forks(st, step) {
      ForksAt(st, step);
      SlotAfter(st, step, FreeSlot(st.table, 0));
      LiveBelow(st, step.p);
    } else if q == step.p {
      LeavesFork(st, step);
    } else {
      var index := st.procs[q].pc.index;
      assert Forking(st, q);
      SlotAfter(st, step, index);
      ForkingOld(st, step, q);
    }
  }

  lemma CodesKept(st: State, step: Step)
    requires Inv(st) && CodesInv(st) && Happens(st, step)
    ensures CodesInv(Next(st, step))
  {
    hide Next, Inv, Forking, HasCode, ForkedBlock;
    forall c | c in Next(st, step).codes ensures c < Next(st, step).next && (c in Next(st, step).procs ==> HasCode(Next(st, step), c)) {
      CodeKept(st, step, c);
    }
    forall q | Forking(Next(st, step), q) ensures ForkedBlock(Next(st, step), q).inc !in Next(st, step).codes {
      ForkedHasNoCode(st, step, q);
    }
  }

  ghost predicate FromBoot(states: seq<State>, steps: seq<Step>) {
    IsRun(states, steps) && exists name :: states[0] == Boot(name)
  }

  lemma {:induction false} RunCodes(states: seq<State>, steps: seq<Step>, n: nat)
    requires FromBoot(states, steps) && n <= |steps|
    ensures Good(states[n]) && CodesInv(states[n])
  {
    hide Good, Next, Boot;
    if n == 0 {
      var name :| states[0] == Boot(name);
      BootGood(name);
      BootCodes(name);
    } else {
      RunCodes(states, steps, n - 1);
      assert Becomes(states[n - 1], steps[n - 1], states[n]);
      NextKeepsGood(states[n - 1], steps[n - 1]);
      GoodInv(states[n - 1]);
      CodesKept(states[n - 1], steps[n - 1]);
    }
  }

  lemma BootCodes(name: string)
    ensures CodesInv(Boot(name))
  {
  }

  lemma GoodInv(st: State)
    requires Good(st)
    ensures Inv(st)
  {
    hide Inv;
  }

  /** Step i is the one and only Exit of the incarnation so far. */
  ghost predicate OnlyExit(steps: seq<Step>, n: nat, c: nat, i: int)
    requires n <= |steps|
  {
    && 0 <= i < n && steps[i].StartExit? && steps[i].p == c
    && forall k :: 0 <= k < n && steps[k].StartExit? && steps[k].p == c ==> k == i
  }

  /** A code is the argument of the one Exit its process has called. */
  lemma {:induction false} CodesAreExits(states: seq<State>, steps: seq<Step>, n: nat, c: nat)
    requires FromBoot(states, steps) && n <= |steps|
    ensures c in states[n].codes ==> exists i :: OnlyExit(steps, n, c, i) && steps[i].code == states[n].codes[c]
    ensures c !in states[n].codes ==> forall k :: 0 <= k < n ==> !(steps[k].StartExit? && steps[k].p == c)
  {
    hide Next, Good;
    if n > 0 {
      CodesAreExits(states, steps, n - 1, c);
      RunCodes(states, steps, n - 1);
      var st, step := states[n - 1], steps[n - 1];
      assert Becomes(st, step, states[n]);
      CodesStep(st, step);
      if step.StartExit? && step.p == c {
        assert c !in st.codes;
        assert OnlyExit(steps, n, c, n - 1);
      } else if c in st.codes {
        var i :| OnlyExit(steps, n - 1, c, i) && steps[i].code == st.codes[c];
        assert OnlyExit(steps, n, c, i);
      }
    }
  }

  /** Where a Join under way comes from. */
  lemma JoinFrom(st: State, step: Step, p: nat)
    requires ProcInv(st) && Happens(st, step) && Joins(Next(st, step), p)
    ensures var j := Next(st, step).procs[p].pc.j;
            || (Joins(st, p) && st.procs[p].pc.j == j)
            || (step == StartJoin(p, j.id) && MayJoin(st, p, j.id) && Has(st, j.id, j.inc) && (j.stray <==> j.inc in st.released))
  {
    ProcAfter(st, step, p);
    if p == step.p { JoinSteps(st, step); }
    hide ProcInv, FreeSlot;
  }

  /** Step i checked the slot for this Join and found this incarnation there, let go or not as it says. */
  ghost predicate Checked(states: seq<State>, steps: seq<Step>, i: int, p: nat, j: Join)
    requires IsRun(states, steps)
  {
    && 0 <= i < |steps| && steps[i] == StartJoin(p, j.id)
    && Has(states[i], j.id, j.inc) && p in states[i].procs && MayJoin(states[i], p, j.id) && (j.stray <==> j.inc in states[i].released)
  }

  lemma {:induction false} JoinTraced(states: seq<State>, steps: seq<Step>, n: nat, p: nat) returns (i: nat)
    requires FromBoot(states, steps) && n <= |steps| && Joins(states[n], p)
    ensures i < n && Checked(states, steps, i, p, states[n].procs[p].pc.j)
  {
    hide Next, Good, ProcInv;
    if n > 0 {
      RunCodes(states, steps, n - 1);
      GoodProcs(states[n - 1]);
      assert Becomes(states[n - 1], steps[n - 1], states[n]);
      JoinFrom(states[n - 1], steps[n - 1], p);
      if Joins(states[n - 1], p) && states[n - 1].procs[p].pc.j == states[n].procs[p].pc.j {
        i := JoinTraced(states, steps, n - 1, p);
      } else {
        i := n - 1;
      }
    } else {
      BootJoins(states[0], p);
    }
  }

  lemma BootJoins(st: State, p: nat)
    requires exists name :: st == Boot(name)
    ensures !Joins(st, p)
  {
  }

  lemma GoodProcs(st: State)
    requires Good(st)
    ensures ProcInv(st) && ReturnInv(st)
  {
    hide ProcInv, ReturnInv;
  }

  /** The step that returned the k-th code. */
  lemma {:induction false} FindReturn(states: seq<State>, steps: seq<Step>, n: nat, k: nat) returns (m: nat)
    requires FromBoot(states, steps) && n <= |steps| && k < |states[n].returned|
    ensures m < n && steps[m].Go? && IsFree(states[m], steps[m].p) && RecordOf(states[m], steps[m].p) == states[n].returned[k]
    ensures |states[m].returned| == k
  {
    hide Next;
    if n > 0 {
      assert Becomes(states[n - 1], steps[n - 1], states[n]);
      HistoryGrows(states[n - 1], steps[n - 1]);
      if k < |states[n - 1].returned| {
        m := FindReturn(states, steps, n - 1, k);
      } else {
        m := n - 1;
      }
    }
  }

  /** In every interleaving the k-th Join to return was called, at step i, on the slot its record says, found
      there the incarnation the record says, and returned, at step m, the argument of the one Exit, at step
      e, of the incarnation it waited for. */
  lemma ReturnedCodes(states: seq<State>, steps: seq<Step>, n: nat, k: nat) returns (p: nat, i: nat, m: nat, e: nat)
    requires FromBoot(states, steps) && n <= |steps| && k < |states[n].returned|
    ensures var r := states[n].returned[k];
            && i < m < n && Checked(states, steps, i, p, r.j)
            && steps[m] == Go(p) && p in states[m].procs && states[m].procs[p].pc == JoinFree(r.j, r.on, r.code)
            && OnlyExit(steps, n, r.on, e) && steps[e] == StartExit(r.on, r.code)
  {
    hide Next, Good;
    m := FindReturn(states, steps, n, k);
    p := steps[m].p;
    i := JoinTraced(states, steps, m, p);
    RunCodes(states, steps, n);
    GoodProcs(states[n]);
    var r := states[n].returned[k];
    assert RecordInv(states[n], r);
    CodesAreExits(states, steps, n, r.on);
    e :| OnlyExit(steps, n, r.on, e) && steps[e].code == states[n].codes[r.on];
  }

  // Exec.

  /** The name given to the process's latest Exec. */
  ghost function NameGiven(steps: seq<Step>, n: nat, p: nat): Option<Option<string>>
    requires n <= |steps|
  {
    if n == 0 then None
    else if steps[n - 1].StartExec? && steps[n - 1].p == p then Some(steps[n - 1].name)
    else NameGiven(steps, n - 1, p)
  }

  ghost predicate InExecWith(pc: Pc, name: Option<string>) {
    match pc
    case ExecEnter(n) => n == name
    case ExecInside(n) => n == name
    case ExecFork(_, file) => name == Some(file)
    case _ => true
  }

  predicate ExecPc(pc: Pc) { pc.ExecEnter? || InExec(pc) }

  lemma ExecFromOwn(st: State, step: Step, name: Option<string>)
    requires Happens(st, step) && step.p in Next(st, step).procs && ExecPc(Next(st, step).procs[step.p].pc)
    requires if step.StartExec? then name == step.name else ExecPc(st.procs[step.p].pc) ==> InExecWith(st.procs[step.p].pc, name)
    ensures InExecWith(Next(st, step).procs[step.p].pc, name)
    ensures step.StartExec? || ExecPc(st.procs[step.p].pc)
  {
    hide FreeSlot;
  }

  lemma ExecFromOther(st: State, step: Step, p: nat)
    requires ProcInv(st) && Happens(st, step) && p != step.p && p in Next(st, step).procs && ExecPc(Next(st, step).procs[p].pc)
    ensures p in st.procs && Next(st, step).procs[p].pc == st.procs[p].pc
  {
    hide Next, FreeSlot;
    ProcAfter(st, step, p);
  }

  lemma {:induction false} ExecCarries(states: seq<State>, steps: seq<Step>, n: nat, p: nat)
    requires FromBoot(states, steps) && n <= |steps| && p in states[n].procs && ExecPc(states[n].procs[p].pc)
    ensures NameGiven(steps, n, p).Some? && InExecWith(states[n].procs[p].pc, NameGiven(steps, n, p).value)
  {
    hide Next, Good, ProcInv, InExecWith;
    if n > 0 {
      var st, step := states[n - 1], steps[n - 1];
      RunCodes(states, steps, n - 1);
      GoodProcs(st);
      assert Becomes(st, step, states[n]);
      if p in st.procs && ExecPc(st.procs[p].pc) { ExecCarries(states, steps, n - 1, p); }
      if p != step.p { ExecFromOther(st, step, p); }
      else { ExecFromOwn(st, step, if NameGiven(steps, n, p).Some? then NameGiven(steps, n, p).value else None); }
    } else {
      BootUser(states[0], p);
    }
  }

  lemma BootUser(st: State, p: nat)
    requires (exists name :: st == Boot(name)) && p in st.procs
    ensures st.procs[p].pc.User?
  {
  }

  /** A block being forked is a child of the process that forks it. */
  ghost predicate ParentInv(st: State) {
    forall p :: Forking(st, p) ==> OwnChild(st, p)
  }

  ghost predicate OwnChild(st: State, p: nat)
    requires Forking(st, p)
  {
    ForkedBlock(st, p).parentID == st.procs[p].slot
  }

  lemma ParentKept(st: State, step: Step, q: nat)
    requires Inv(st) && ParentInv(st) && Happens(st, step) && Forking(Next(st, step), q)
    ensures OwnChild(Next(st, step), q)
  {
    hide Next, FreeSlot, SemInv, JoinInv, ReturnInv;
    ProcAfter(st, step, q);
    if q == step.p && !Forks(st, step) {
      ForksAt(st, step);
      SlotAfter(st, step, FreeSlot(st.table, 0));
    } else if q == step.p {
      LeavesFork(st, step);
    } else {
      assert Forking(st, q);
      ForkingOld(st, step, q);
      SlotAfter(st, step, st.procs[q].pc.index);
    }
  }

  lemma {:induction false} RunParents(states: seq<State>, steps: seq<Step>, n: nat)
    requires FromBoot(states, steps) && n <= |steps|
    ensures ParentInv(states[n])
  {
    hide Good, Next, Boot, Forking, OwnChild;
    if n > 0 {
      RunParents(states, steps, n - 1);
      RunCodes(states, steps, n - 1);
      GoodInv(states[n - 1]);
      assert Becomes(states[n - 1], steps[n - 1], states[n]);
      forall q | Forking(states[n], q) ensures OwnChild(states[n], q) {
        ParentKept(states[n - 1], steps[n - 1], q);
      }
    } else {
      assert forall q :: !Forking(states[0], q) by { BootForks(states[0]); }
    }
  }

  lemma BootForks(st: State)
    requires exists name :: st == Boot(name)
    ensures forall q :: !Forking(st, q)
  {
  }

  /** Exec gives up, for a name that is missing or the caller's own, or with no slot free. */
  ghost predicate MayNotExec(st: State, p: nat, name: Option<string>)
    requires p in st.procs
  {
    name.None? || name.value == st.procs[p].name || forall k :: InTable(k) ==> Occupied(st, k)
  }

  /** The step makes one new process, a child of the caller, running the named program in the slot. */
  ghost predicate MakesChild(st: State, p: nat, st': State, c: nat, slot: int, file: string) {
    && p in st.procs && c !in st.procs && st'.procs.Keys == st.procs.Keys + {c}
    && st'.procs[c] == Process(slot, file, User)
    && Has(st', slot, c) && st'.table[slot].value.parentID == st.procs[p].slot
  }

  ghost predicate MakesOne(st: State, p: nat, st': State, slot: int, file: string) {
    exists c :: MakesChild(st, p, st', c, slot, file)
  }

  lemma ForkMakes(st: State, p: nat)
    requires TableInv(st) && ProcInv(st) && ParentInv(st) && Happens(st, Go(p)) && st.procs[p].pc.ExecFork?
    ensures var st', index := Next(st, Go(p)), st.procs[p].pc.index;
            && st'.procs[p].pc == ExecLeave(index)
            && MakesChild(st, p, st', st.table[index].value.inc, index, st.procs[p].pc.file)
  {
    assert Forking(st, p);
  }

  lemma InsideEnds(st: State, p: nat)
    requires |st.table| == MaxProcess && Happens(st, Go(p)) && st.procs[p].pc.ExecInside?
    ensures var st' := Next(st, Go(p));
            && st'.procs.Keys == st.procs.Keys
            && (if MayNotExec(st, p, st.procs[p].pc.name) then st'.procs[p].pc == ExecLeave(-1) else st'.procs[p].pc.ExecFork?)
  {
    var index := FreeSlot(st.table, 0);
    hide FreeSlot;
    assert index >= 0 ==> InTable(index) && !Occupied(st, index);
    assert index < 0 ==> forall k :: InTable(k) ==> Occupied(st, k);
  }

  lemma OtherSteps(st: State, step: Step)
    requires Happens(st, step) && step.p in Next(st, step).procs && Next(st, step).procs[step.p].pc.ExecLeave?
    ensures step.Go? && (st.procs[step.p].pc.ExecFork? || st.procs[step.p].pc.ExecInside?)
  {
    hide FreeSlot;
  }

  /** What an Exec that is about to return gives back, and where that was decided. */
  ghost predicate ExecDecided(states: seq<State>, steps: seq<Step>, f: int, p: nat, name: Option<string>, result: int)
    requires IsRun(states, steps)
  {
    && 0 <= f < |steps| && steps[f] == Go(p) && p in states[f].procs
    && if result == -1 then MayNotExec(states[f], p, name) && states[f + 1].procs.Keys == states[f].procs.Keys
       else name.Some? && MakesOne(states[f], p, states[f + 1], result, name.value)
  }

  lemma DecidesNow(states: seq<State>, steps: seq<Step>, f: nat, p: nat)
    requires FromBoot(states, steps) && f < |steps| && steps[f] == Go(p) && p in states[f + 1].procs && states[f + 1].procs[p].pc.ExecLeave?
    ensures NameGiven(steps, f, p).Some? && ExecDecided(states, steps, f, p, NameGiven(steps, f, p).value, states[f + 1].procs[p].pc.result)
  {
    hide Next, Good;
    var st := states[f];
    RunCodes(states, steps, f);
    GoodInv(st);
    InvParts(st);
    RunParents(states, steps, f);
    hide TableInv, ProcInv, ParentInv, MakesChild;
    assert Becomes(st, steps[f], states[f + 1]);
    OtherSteps(st, steps[f]);
    ExecCarries(states, steps, f, p);
    if st.procs[p].pc.ExecFork? {
      ForkMakes(st, p);
      assert InTable(st.procs[p].pc.index);
    } else {
      InsideEnds(st, p);
    }
  }

  /** In every interleaving Exec returns -1 exactly when it gives up, without having made a process, and
      otherwise the slot of the one process it has made, which runs the program it was given the name of
      and is its child. */
  lemma {:induction false} ExecReturns(states: seq<State>, steps: seq<Step>, n: nat, p: nat) returns (f: nat)
    requires FromBoot(states, steps) && n <= |steps| && p in states[n].procs && states[n].procs[p].pc.ExecLeave?
    ensures f < n && NameGiven(steps, n, p).Some?
    ensures ExecDecided(states, steps, f, p, NameGiven(steps, n, p).value, states[n].procs[p].pc.result)
  {
    hide Next, Good, ExecDecided, ProcInv;
    if n == 0 {
      BootUser(states[0], p);
    } else if steps[n - 1] == Go(p) {
      f := n - 1;
      DecidesNow(states, steps, f, p);
    } else {
      RunCodes(states, steps, n - 1);
      GoodProcs(states[n - 1]);
      assert Becomes(states[n - 1], steps[n - 1], states[n]);
      ProcAfter(states[n - 1], steps[n - 1], p);
      if steps[n - 1].p == p { OtherSteps(states[n - 1], steps[n - 1]); }
      f := ExecReturns(states, steps, n - 1, p);
    }
  }

  // Operations that run without interruption, and a run in which Join goes wrong.

  lemma {:induction false} Then(st: State, steps: seq<Step>, mid: State, step: Step)
    requires Leads(st, steps, mid) && Happens(mid, step)
    ensures Leads(st, steps + [step], Next(mid, step))
    decreases |steps|
  {
    hide Next;
    if steps == [] {
      assert [step][1..] == [];
    } else {
      Then(Next(st, steps[0]), steps[1..], mid, step);
      assert (steps + [step])[1..] == steps[1..] + [step];
    }
  }

  ghost function Execed(st: State, p: nat, name: string): State
    requires p in st.procs && |st.table| == MaxProcess && FreeSlot(st.table, 0) >= 0
  {
    var index := FreeSlot(st.table, 0);
    st.(table := st.table[index := Some(Pcb(st.next, index, st.procs[p].slot, 0, 0, 0))],
        procs := st.procs[st.next := Process(index, name, User)], next := st.next + 1)
  }

  /** ExecUpdate gives the new process the lowest free slot. */
  lemma ExecAlone(origin: State, steps: seq<Step>, st: State, p: nat, name: string) returns (steps': seq<Step>)
    requires Leads(origin, steps, st)
    requires |st.table| == MaxProcess && FreeSlot(st.table, 0) >= 0 && p in st.procs && st.procs[p].pc.User?
    requires st.bmsem > 0 && st.next !in st.procs && name != st.procs[p].name
    ensures Leads(origin, steps', Execed(st, p, name))
  {
    hide FreeSlot, Leads;
    Then(origin, steps, st, StartExec(p, Some(name)));
    var st1 := Next(st, StartExec(p, Some(name)));
    steps' := steps + [StartExec(p, Some(name))];
    Then(origin, steps', st1, Go(p));
    var st2 := Next(st1, Go(p));
    steps' := steps' + [Go(p)];
    Then(origin, steps', st2, Go(p));
    var st3 := Next(st2, Go(p));
    steps' := steps' + [Go(p)];
    Then(origin, steps', st3, Go(p));
    var st4 := Next(st3, Go(p));
    steps' := steps' + [Go(p)];
    Then(origin, steps', st4, Go(p));
    steps' := steps' + [Go(p)];
    assert Next(st4, Go(p)).procs == Execed(st, p, name).procs;
  }

  ghost function Exited(st: State, p: nat, code: int): State
    requires p in st.procs && Has(st, st.procs[p].slot, p)
  {
    var slot := st.procs[p].slot;
    var pcb := st.table[slot].value;
    At(Put(st, slot, Some(pcb.(exitcode := code, joinsem := pcb.joinsem + 1))).(codes := st.codes[p := code]), p, ExitWait)
  }

  lemma ExitAlone(origin: State, steps: seq<Step>, st: State, p: nat, code: int) returns (steps': seq<Step>)
    requires Leads(origin, steps, st) && Enabled(st, StartExit(p, code))
    ensures Leads(origin, steps', Exited(st, p, code))
  {
    hide Leads;
    Then(origin, steps, st, StartExit(p, code));
    var st1 := Next(st, StartExit(p, code));
    steps' := steps + [StartExit(p, code)];
    Then(origin, steps', st1, Go(p));
    steps' := steps' + [Go(p)];
    assert Next(st1, Go(p)).procs == Exited(st, p, code).procs;
    assert Next(st1, Go(p)).table == Exited(st, p, code).table;
  }

  ghost function Left(st: State, p: nat): State
    requires p in st.procs && Has(st, st.procs[p].slot, p)
  {
    Put(st, st.procs[p].slot, None).(procs := st.procs - {p})
  }

  lemma LeaveAlone(origin: State, steps: seq<Step>, st: State, p: nat) returns (steps': seq<Step>)
    requires Leads(origin, steps, st) && Enabled(st, Go(p)) && st.procs[p].pc.ExitWait?
    ensures Leads(origin, steps', Left(st, p))
  {
    hide Leads;
    Then(origin, steps, st, Go(p));
    var st1 := Next(st, Go(p));
    steps' := steps + [Go(p)];
    Then(origin, steps', st1, Go(p));
    steps' := steps' + [Go(p)];
    assert Next(st1, Go(p)).procs == Left(st, p).procs;
    assert Next(st1, Go(p)).table == Left(st, p).table;
  }

  ghost function Joined(st: State, p: nat): State
    requires p in st.procs && st.procs[p].pc.JoinEnter? && |st.table| == MaxProcess
    requires InTable(st.procs[p].pc.j.id) && st.table[st.procs[p].pc.j.id].Some?
  {
    var j := st.procs[p].pc.j;
    var pcb := st.table[j.id].value;
    At(Put(st, j.id, Some(pcb.(joinsem := pcb.joinsem - 1, exitsem := pcb.exitsem + 1)))
         .(passed := st.passed + {pcb.inc}, released := st.released + {pcb.inc}, returned := st.returned + [Record(j, pcb.inc, pcb.exitcode)]), p, User)
  }

  lemma JoinAlone(origin: State, steps: seq<Step>, st: State, p: nat) returns (steps': seq<Step>)
    requires Leads(origin, steps, st) && p in st.procs && st.procs[p].pc.JoinEnter? && |st.table| == MaxProcess
    requires InTable(st.procs[p].pc.j.id) && st.table[st.procs[p].pc.j.id].Some? && st.table[st.procs[p].pc.j.id].value.joinsem > 0
    ensures Leads(origin, steps', Joined(st, p))
  {
    hide Leads;
    Then(origin, steps, st, Go(p));
    var st1 := Next(st, Go(p));
    steps' := steps + [Go(p)];
    Then(origin, steps', st1, Go(p));
    var st2 := Next(st1, Go(p));
    steps' := steps' + [Go(p)];
    Then(origin, steps', st2, Go(p));
    var st3 := Next(st2, Go(p));
    steps' := steps' + [Go(p)];
    Then(origin, steps', st3, Go(p));
    steps' := steps' + [Go(p)];
    assert Next(st3, Go(p)).procs == Joined(st, p).procs;
    assert Next(st3, Go(p)).table == Joined(st, p).table;
  }

  /** Two children of the main process, in slots 1 and 2; the first exits with 7 and is joined. */
  ghost function JoinedOnce(): State
  {
    var a := Pcb(1, 1, 0, 7, 0, 1);
    var b := Pcb(2, 2, 0, 0, 0, 0);
    State([Some(Pcb(0, 0, -1, 0, 0, 0)), Some(a), Some(b)] + seq(MaxProcess - 3, i => None),
          map[0 := Process(0, "main", User), 1 := Process(1, "a", ExitWait), 2 := Process(2, "b", User)], 1, 3,
          map[1 := 7], {1}, {1}, [Record(Join(1, 1, false), 1, 7)], true)
  }

  lemma LowestFree(table: seq<Option<Pcb>>, r: nat)
    requires r < |table| && table[r].None? && forall k :: 0 <= k < r ==> table[k].Some?
    ensures FreeSlot(table, 0) == r
  {
    hide FreeSlot;
    var f := FreeSlot(table, 0);
    assert f >= 0 && table[f].None?;
  }

  ghost function TwoChildren(): State {
    State([Some(Pcb(0, 0, -1, 0, 0, 0)), Some(Pcb(1, 1, 0, 0, 0, 0)), Some(Pcb(2, 2, 0, 0, 0, 0))] + seq(MaxProcess - 3, i => None),
          map[0 := Process(0, "main", User), 1 := Process(1, "a", User), 2 := Process(2, "b", User)], 1, 3,
          map[], {}, {}, [], true)
  }

  lemma ReachTwoChildren() returns (steps: seq<Step>)
    ensures Leads(Boot("main"), steps, TwoChildren())
  {
    hide FreeSlot, Happens, Next;
    var st0 := Boot("main");
    LowestFree(st0.table, 1);
    steps := ExecAlone(st0, [], st0, 0, "a");
    hide Leads;
    var st1 := Execed(st0, 0, "a");
    LowestFree(st1.table, 2);
    steps := ExecAlone(st0, steps, st1, 0, "b");
    assert Execed(st1, 0, "b").table == TwoChildren().table;
    assert Execed(st1, 0, "b").procs == TwoChildren().procs;
  }

  lemma ReachJoinedOnce() returns (steps: seq<Step>)
    ensures Leads(Boot("main"), steps, JoinedOnce())
  {
    hide FreeSlot, Leads, Happens, Next;
    var st0, st1 := Boot("main"), TwoChildren();
    steps := ReachTwoChildren();
    steps := ExitAlone(st0, steps, st1, 1, 7);
    var st2 := Exited(st1, 1, 7);
    steps := ReachJoin(st0, steps, st2);
    var st3, goal := Joined(JoinStarted(st2), 0), JoinedOnce();
    assert st3.table == goal.table && st3.procs == goal.procs;
    assert st3.passed == goal.passed && st3.codes == goal.codes && st3.returned == goal.returned;
  }

  /** The main process has just checked slot 1. */
  ghost function JoinStarted(st: State): State
    requires |st.table| == MaxProcess && st.table[1].Some? && 0 in st.procs
  {
    var inc := st.table[1].value.inc;
    At(st.(clean := st.clean && inc !in st.released), 0, JoinEnter(Join(1, inc, inc in st.released)))
  }

  lemma ReachStart(origin: State, steps: seq<Step>, st: State) returns (steps': seq<Step>)
    requires Leads(origin, steps, st) && Enabled(st, StartJoin(0, 1)) && MayJoin(st, 0, 1)
    ensures Leads(origin, steps', JoinStarted(st))
  {
    hide Leads;
    Then(origin, steps, st, StartJoin(0, 1));
    steps' := steps + [StartJoin(0, 1)];
  }

  lemma ReachJoin(origin: State, steps: seq<Step>, st: State) returns (steps': seq<Step>)
    requires Leads(origin, steps, st) && Enabled(st, StartJoin(0, 1)) && MayJoin(st, 0, 1) && st.table[1].value.joinsem > 0
    ensures Leads(origin, steps', Joined(JoinStarted(st), 0))
  {
    hide Leads;
    steps' := ReachStart(origin, steps, st);
    steps' := JoinAlone(origin, steps', JoinStarted(st), 0);
  }

  /** The main process joins its first child a second time. Before it gets to wait, that child leaves,
      the other child starts a process of its own in the slot, and it is that one's code, 9, that the
      main process gets. */
  lemma JoinAgainGoesWrong() returns (steps: seq<Step>, st: State)
    ensures Leads(Boot("main"), steps, st)
    ensures st.returned == [Record(Join(1, 1, false), 1, 7), Record(Join(1, 1, true), 3, 9)] && !AllRight(st)
  {
    hide FreeSlot, Leads, Happens, Next;
    var st0, st1 := Boot("main"), JoinedOnce();
    steps := ReachJoinedOnce();
    steps := ReachStart(st0, steps, st1);
    var st2 := JoinStarted(st1);
    steps := LeaveAlone(st0, steps, st2, 1);
    var st3 := Left(st2, 1);
    LowestFree(st3.table, 1);
    steps := ExecAlone(st0, steps, st3, 2, "c");
    var st4 := Execed(st3, 2, "c");
    steps := ExitAlone(st0, steps, st4, 3, 9);
    var st5 := Exited(st4, 3, 9);
    steps := JoinAlone(st0, steps, st5, 0);
    st := Joined(st5, 0);
    assert st.returned[1] == Record(Join(1, 1, true), 3, 9);
  }
}

/** The process table itself, updated in place. Each method takes process p one step through the
    function it is named after. */
module ProcessTables {
  import opened Options
  import opened ProcessSpec

  class PTable {
    const pcb: array<Option<Pcb>>
    var procs: map<nat, Process>
    var bmsem: int
    var next: nat
    var released: set<nat>      // history that a Join under way carries along
    ghost var codes: map<nat, int>
    ghost var passed: set<nat>
    ghost var returned: seq<Record>
    ghost var clean: bool

    ghost function View(): State
      reads this, pcb
    {
      State(pcb[..], procs, bmsem, next, codes, passed, released, returned, clean)
    }

    constructor (name: string)
      ensures View() == Boot(name) && Good(View()) && fresh(pcb)
    {
      pcb := new Option<Pcb>[MaxProcess](i => None);
      procs, bmsem, next := map[0 := Process(0, name, User)], 1, 1;
      codes, passed, released, returned, clean := map[], {}, {}, [], true;
      new;
      pcb[0] := Some(Pcb(0, 0, -1, 0, 0, 0));
      BootGood(name);
    }

    method GetFreeSlot() returns (r: int)
      ensures r == FreeSlot(pcb[..], 0)
    {
      for i := 0 to pcb.Length
        invariant FreeSlot(pcb[..], 0) == FreeSlot(pcb[..], i)
      {
        if pcb[i].None? {
          return i;
        }
      }
      return -1;
    }

    method Goto(p: nat, pc: Pc)
      requires p in procs
      modifies `procs
      ensures View() == At(old(View()), p, pc)
    {
      procs := procs[p := procs[p].(pc := pc)];
    }

    method Store(id: int, block: Option<Pcb>)
      requires InTable(id) && pcb.Length == MaxProcess
      modifies pcb
      ensures View() == Put(old(View()), id, block)
    {
      pcb[id] := block;
      assert pcb[..] == old(pcb[..])[id := block];
    }

    method Exec(p: nat, name: Option<string>)
      requires Good(View()) && Enabled(View(), StartExec(p, name))
      modifies this
      ensures Good(View()) && Becomes(old(View()), StartExec(p, name), View())
    {
      hide Good;
      NextKeepsGood(View(), StartExec(p, name));
      Goto(p, ExecEnter(name));
    }

    method ExecUpdate(p: nat)
      requires Good(View()) && Enabled(View(), Go(p)) && Asserted(View(), Go(p))
      requires procs[p].pc.ExecEnter? || procs[p].pc.ExecInside? || procs[p].pc.ExecFork? || procs[p].pc.ExecLeave?
      modifies this, pcb
      ensures Good(View()) && Becomes(old(View()), Go(p), View())
    {
      hide Good, FreeSlot;
      NextKeepsGood(View(), Go(p));
      match procs[p].pc
      case ExecEnter(name) =>
        bmsem := bmsem - 1;
        Goto(p, ExecInside(name));
      case ExecInside(name) =>
        AllocateBlock(p, name);
      case ExecFork(index, file) =>
        procs := procs[pcb[index].value.inc := Process(pcb[index].value.processID, file, User)];
        Goto(p, ExecLeave(index));
      case ExecLeave(result) =>
        bmsem := bmsem + 1;
        Goto(p, User);
    }

    method AllocateBlock(p: nat, name: Option<string>)
      requires p in procs && pcb.Length == MaxProcess
      modifies this, pcb
      ensures View() == Allocate(old(View()), p, name)
    {
      hide FreeSlot;
      if name.None? || name.value == procs[p].name {
        Goto(p, ExecLeave(-1));
        return;
      }
      var index := GetFreeSlot();
      if index < 0 {
        Goto(p, ExecLeave(-1));
        return;
      }
      Store(index, Some(Pcb(next, index, procs[p].slot, 0, 0, 0)));
      next := next + 1;
      Goto(p, ExecFork(index, name.value));
    }

    /** JoinUpdate up to its first call; ok is false when it returns -1. */
    method StartJoinUpdate(p: nat, id: int) returns (ok: bool)
      requires Good(View()) && Enabled(View(), StartJoin(p, id))
      modifies this
      ensures Good(View()) && Becomes(old(View()), StartJoin(p, id), View()) && ok == MayJoin(old(View()), p, id)
    {
      hide Good;
      NextKeepsGood(View(), StartJoin(p, id));
      if id < 0 || id >= MaxProcess || pcb[id].None? || pcb[id].value.parentID != procs[p].slot {
        return false;
      }
      var inc := pcb[id].value.inc;
      var stray := inc in released;
      clean := clean && !stray;
      Goto(p, JoinEnter(Join(id, inc, stray)));
      return true;
    }

    /** The rest of JoinUpdate. */
    method JoinUpdate(p: nat)
      requires Good(View()) && Enabled(View(), Go(p)) && Asserted(View(), Go(p))
      requires procs[p].pc.JoinEnter? || procs[p].pc.JoinWait? || procs[p].pc.JoinRead? || procs[p].pc.JoinFree?
      modifies this, pcb
      ensures Good(View()) && Becomes(old(View()), Go(p), View())
    {
      hide Good;
      NextKeepsGood(View(), Go(p));
      var id := procs[p].pc.j.id;
      var block := pcb[id].value;
      match procs[p].pc
      case JoinEnter(j) =>
        Goto(p, JoinWait(j, block.inc));
      case JoinWait(j, on) =>
        Store(id, Some(block.(joinsem := block.joinsem - 1)));
        passed := passed + {on};
        Goto(p, JoinRead(j, on));
      case JoinRead(j, on) =>
        Goto(p, JoinFree(j, on, block.exitcode));
      case JoinFree(j, on, code) =>
        Store(id, Some(block.(exitsem := block.exitsem + 1)));
        released := released + {block.inc};
        returned := returned + [Record(j, on, code)];
        Goto(p, User);
    }

    /** ExitUpdate up to SetExitCode. */
    method StartExitUpdate(p: nat, code: int)
      requires Good(View()) && Enabled(View(), StartExit(p, code))
      modifies this, pcb
      ensures Good(View()) && Becomes(old(View()), StartExit(p, code), View())
    {
      hide Good;
      NextKeepsGood(View(), StartExit(p, code));
      var slot := procs[p].slot;
      Store(slot, Some(pcb[slot].value.(exitcode := code)));
      codes := codes[p := code];
      Goto(p, ExitJoin);
    }

    /** The rest of ExitUpdate. */
    method ExitUpdate(p: nat)
      requires Good(View()) && Enabled(View(), Go(p)) && Asserted(View(), Go(p))
      requires procs[p].pc.ExitJoin? || procs[p].pc.ExitWait? || procs[p].pc.ExitRemove?
      modifies this, pcb
      ensures Good(View()) && Becomes(old(View()), Go(p), View())
    {
      hide Good;
      NextKeepsGood(View(), Go(p));
      var slot := procs[p].slot;
      var block := pcb[slot].value;
      match procs[p].pc
      case ExitJoin =>
        Store(slot, Some(block.(joinsem := block.joinsem + 1)));
        Goto(p, ExitWait);
      case ExitWait =>
        Store(slot, Some(block.(exitsem := block.exitsem - 1)));
        Goto(p, ExitRemove);
      case ExitRemove =>
        Remove(slot);
        procs := procs - {p};
    }

    method Remove(id: int)
      requires InTable(id) && pcb.Length == MaxProcess
      modifies pcb
      ensures View() == Put(old(View()), id, None)
    {
      if pcb[id].Some? {
        Store(id, None);
      }
      assert pcb[..] == old(pcb[..])[id := None];
    }
  }
}
