/** Threads, the ready list and semaphores (threads/thread.cc, scheduler.cc and synch.cc) as a machine
    whose steps are the sections that run with interrupts off. */
module ThreadSpec {
  import opened Options
  import opened ListSpec

  datatype Status = JustCreated | Running | Ready | Blocked

  datatype Semaphore = Semaphore(value: int, queue: seq<nat>)

  /** What the processor is doing: running the current thread's code; in the loop of Sleep, looking
      for a thread to run; or just switched to the current thread, which has yet to look for a
      finished one to delete. */
  datatype Phase = InThread | Sleeping(finishing: bool) | Arriving

  /** `waiting` maps each thread inside the loop of P to its semaphore. */
  datatype State = State(
    threads: map<nat, Status>,
    current: nat,
    phase: Phase,
    ready: seq<nat>,
    toBeDestroyed: Option<nat>,
    sems: map<nat, Semaphore>,
    waiting: map<nat, nat>)

  function ReadyToRun(st: State, t: nat): State {
    st.(threads := st.threads[t := Ready], ready := st.ready + [t])
  }

  /** Scheduler::Run up to SWITCH. */
  function Run(st: State, next: nat, finishing: bool): State
    requires finishing ==> st.toBeDestroyed.None?
  {
    st.(toBeDestroyed := if finishing then Some(st.current) else st.toBeDestroyed,
        threads := st.threads[next := Running], current := next, phase := Arriving)
  }

  function CheckToBeDestroyed(st: State): State {
    if st.toBeDestroyed.Some? then st.(threads := st.threads - {st.toBeDestroyed.value}, toBeDestroyed := None) else st
  }

  function Sleep(st: State, finishing: bool): State {
    st.(threads := st.threads[st.current := Blocked], phase := Sleeping(finishing))
  }

  /** One turn of the loop of P: take the semaphore, or queue up and sleep. */
  function TryP(st: State, s: nat): State
    requires s in st.sems
  {
    var sem := st.sems[s];
    if sem.value == 0 then
      Sleep(st.(sems := st.sems[s := sem.(queue := sem.queue + [st.current])], waiting := st.waiting[st.current := s]), false)
    else
      st.(sems := st.sems[s := sem.(value := sem.value - 1)], waiting := st.waiting - {st.current})
  }

  function DoV(st: State, s: nat): State
    requires s in st.sems
  {
    var sem := st.sems[s];
    if sem.queue == [] then st.(sems := st.sems[s := sem.(value := sem.value + 1)])
    else ReadyToRun(st.(sems := st.sems[s := sem.(value := sem.value + 1, queue := sem.queue[1..])]), sem.queue[0])
  }

  function DoYield(st: State): State {
    if st.ready == [] then st
    else Run(ReadyToRun(st.(ready := st.ready[1..]), st.current), st.ready[0], false)
  }

  function DoArrive(st: State): State
    requires st.current in st.waiting ==> st.waiting[st.current] in st.sems
  {
    var st1 := CheckToBeDestroyed(st).(phase := InThread);
    if st.current in st.waiting then TryP(st1, st.waiting[st.current]) else st1
  }

  datatype Step = NewThread(t: nat) | Fork(t: nat) | NewSemaphore(s: nat, initial: int)
                | P(s: nat) | V(s: nat) | Yield | Finish | Dispatch | Arrive

  /** When a step can happen. A V may come from the running thread or, also while Sleep is looking
      for a thread, from an interrupt handler. */
  ghost predicate Enabled(st: State, step: Step) {
    match step
    case NewThread(t) => st.phase.InThread? && t !in st.threads
    case Fork(t) => st.phase.InThread? && t in st.threads && st.threads[t] == JustCreated
    case NewSemaphore(s, initial) => st.phase.InThread? && s !in st.sems && initial >= 0
    case P(s) => st.phase.InThread? && s in st.sems
    case V(s) => !st.phase.Arriving? && s in st.sems
    case Yield => st.phase.InThread?
    case Finish => st.phase.InThread?
    case Dispatch => st.phase.Sleeping? && st.ready != []
    case Arrive => st.phase.Arriving?
  }

  /** What the source asserts or relies on in the step. The lists assert that what is appended is not in
      them yet. When a finished thread is switched out nobody else awaits destruction, no thread deletes
      itself, and the semaphore slept on still exists. */
  ghost predicate Asserted(st: State, step: Step) {
    match step
    case Fork(t) => t !in st.ready
    case P(s) => NotQueued(st, s)
    case V(s) => s in st.sems && st.sems[s].queue != [] ==> st.sems[s].queue[0] !in st.ready
    case Yield => st.ready != [] ==> st.current !in st.ready[1..]
    case Dispatch => Enabled(st, step) && st.phase.finishing ==> st.toBeDestroyed.None?
    case Arrive =>
      && st.toBeDestroyed != Some(st.current)
      && (st.current in st.waiting ==> st.waiting[st.current] in st.sems && NotQueued(st, st.waiting[st.current]))
    case _ => true
  }

  ghost predicate NotQueued(st: State, s: nat) {
    s in st.sems ==> st.current !in st.sems[s].queue
  }

  ghost function Next(st: State, step: Step): State
    requires Enabled(st, step) && Asserted(st, step)
  {
    match step
    case NewThread(t) => st.(threads := st.threads[t := JustCreated])
    case Fork(t) => ReadyToRun(st, t)
    case NewSemaphore(s, initial) => st.(sems := st.sems[s := Semaphore(initial, [])])
    case P(s) => TryP(st, s)
    case V(s) => DoV(st, s)
    case Yield => DoYield(st)
    case Finish => Sleep(st, true)
    case Dispatch => Run(st.(ready := st.ready[1..]), st.ready[0], st.phase.finishing)
    case Arrive => DoArrive(st)
  }

  /** Threads woken by a V on the semaphore that have not yet looked at its value again. */
  ghost function Woken(st: State, s: nat): (r: set<nat>)
    requires s in st.sems
  {
    set t | t in st.waiting && st.waiting[t] == s && t !in st.sems[s].queue
  }

  // The invariant, by what it is about.

  ghost predicate ReadyInv(st: State) {
    NoDup(st.ready) && forall t :: t in st.ready <==> t in st.threads && st.threads[t] == Ready
  }

  ghost predicate CpuInv(st: State) {
    && st.current in st.threads
    && (forall t :: t in st.threads ==> (st.threads[t] == Running <==> t == st.current && !st.phase.Sleeping?))
    && (st.phase == Sleeping(true) ==> st.threads[st.current] == Blocked && st.current !in st.waiting)
    && (st.phase == Sleeping(false) ==> st.current in st.waiting)
    && (st.toBeDestroyed.Some? ==>
          var t := st.toBeDestroyed.value;
          st.phase.Arriving? && t != st.current && t in st.threads && st.threads[t] == Blocked && t !in st.waiting)
  }

  ghost predicate QueueInv(st: State) {
    forall s :: s in st.sems ==>
      && NoDup(st.sems[s].queue)
      && forall t :: t in st.sems[s].queue ==> t in st.waiting && st.waiting[t] == s && t in st.threads && st.threads[t] == Blocked
  }

  /** Leaving for good: the current thread in Finish, or the one awaiting destruction. */
  ghost predicate Leaving(st: State, t: nat) {
    (st.phase == Sleeping(true) && t == st.current) || st.toBeDestroyed == Some(t)
  }

  ghost predicate WaitInv(st: State) {
    && (forall t :: t in st.waiting ==>
          && t in st.threads && st.waiting[t] in st.sems && st.threads[t] != JustCreated
          && (st.threads[t] == Blocked ==> t in st.sems[st.waiting[t]].queue))
    && (forall t :: t in st.threads && st.threads[t] == Blocked ==> t in st.waiting || Leaving(st, t))
  }

  /** The value is never negative, and a thread is left in the queue only while enough woken ones are on
      their way to use it up. */
  ghost predicate SemInv(st: State, s: nat)
    requires s in st.sems
  {
    var sem := st.sems[s];
    && sem.value >= 0
    && (sem.queue != [] ==> sem.value <= |Woken(st, s)|)
  }

  ghost predicate CountInv(st: State) {
    forall s :: s in st.sems ==> SemInv(st, s)
  }

  /** All of the above. It also holds in the middle of P, where the current thread is still in the loop. */
  ghost predicate LoopInv(st: State) {
    ReadyInv(st) && CpuInv(st) && QueueInv(st) && WaitInv(st) && CountInv(st)
  }

  ghost predicate Inv(st: State) {
    LoopInv(st) && (st.phase.InThread? ==> st.current !in st.waiting)
  }

  /** In good states the assertions hold. */
  lemma InvAsserts(st: State, step: Step)
    requires Inv(st) && Enabled(st, step)
    ensures Asserted(st, step)
  {
    hide CountInv, NoDup;
    if step.V? && st.sems[step.s].queue != [] { assert st.sems[step.s].queue[0] in st.sems[step.s].queue; }
  }

  lemma NoDupAppend(s: seq<nat>, x: nat)
    requires NoDup(s) && x !in s
    ensures NoDup(s + [x])
  {
  }

  lemma NoDupTail(s: seq<nat>)
    requires NoDup(s) && s != []
    ensures NoDup(s[1..]) && s[0] !in s[1..] && forall x :: x in s[1..] <==> x in s && x != s[0]
  {
    assert s == [s[0]] + s[1..];
  }

  lemma WakeCounts(st: State, s: nat)
    requires LoopInv(st) && s in st.sems
    ensures CountInv(DoV(st, s))
  {
    var st', sem := DoV(st, s), st.sems[s];
    forall r | r in st'.sems ensures SemInv(st', r) {
      if r != s || sem.queue == [] {
        assert Woken(st', r) == Woken(st, r);
      } else {
        NoDupTail(sem.queue);
        assert Woken(st', s) == Woken(st, s) + {sem.queue[0]};
      }
    }
  }

  lemma WakeQueues(st: State, s: nat)
    requires QueueInv(st) && s in st.sems
    ensures QueueInv(DoV(st, s))
  {
    var st', queue := DoV(st, s), st.sems[s].queue;
    if queue != [] {
      NoDupTail(queue);
      forall r | r in st'.sems
        ensures NoDup(st'.sems[r].queue)
        ensures forall t :: t in st'.sems[r].queue ==> t in st.sems[r].queue && t != queue[0]
      {
      }
      hide NoDup;
    }
  }

  lemma WakeWaiting(st: State, s: nat)
    requires WaitInv(st) && QueueInv(st) && s in st.sems
    ensures WaitInv(DoV(st, s))
  {
    var st', queue := DoV(st, s), st.sems[s].queue;
    if queue != [] {
      NoDupTail(queue);
      hide NoDup;
      forall t | t in st'.waiting && st'.threads[t] == Blocked
        ensures t in st'.sems[st'.waiting[t]].queue
      {
        assert t != queue[0] && t in st.sems[st.waiting[t]].queue;
      }
    }
  }

  lemma QueuedBlocked(st: State, s: nat, t: nat)
    requires QueueInv(st) && s in st.sems && t in st.sems[s].queue
    ensures t in st.threads && st.threads[t] == Blocked && t in st.waiting
  {
  }

  lemma WakeKeepsInv(st: State, s: nat)
    requires Inv(st) && Enabled(st, V(s))
    ensures Inv(DoV(st, s))
  {
    hide CountInv, QueueInv, WaitInv, NoDup;
    WakeCounts(st, s);
    WakeQueues(st, s);
    WakeWaiting(st, s);
    var queue := st.sems[s].queue;
    if queue != [] {
      QueuedBlocked(st, s, queue[0]);
      NoDupAppend(st.ready, queue[0]);
    }
  }

  /** The current thread looks at the semaphore, for the first time or after having been woken. */
  ghost predicate Looking(st: State, s: nat) {
    && LoopInv(st) && st.phase.InThread? && st.toBeDestroyed.None? && s in st.sems
    && (st.current in st.waiting ==> st.waiting[st.current] == s)
  }

  lemma TryCountsOther(st: State, s: nat, r: nat)
    requires Looking(st, s) && r in st.sems && r != s
    ensures SemInv(TryP(st, s), r)
  {
    hide ReadyInv, WaitInv, CpuInv, QueueInv;
    assert SemInv(st, r);
    assert Woken(TryP(st, s), r) == Woken(st, r);
  }

  lemma TryCountsOwn(st: State, s: nat)
    requires Looking(st, s)
    ensures SemInv(TryP(st, s), s)
  {
    hide ReadyInv, WaitInv, NoDup;
    assert SemInv(st, s);
    hide CountInv;
    if st.sems[s].value > 0 {
      assert Woken(TryP(st, s), s) == Woken(st, s) - {st.current};
      assert st.current !in st.waiting ==> st.current !in Woken(st, s);
    }
  }

  lemma TryCounts(st: State, s: nat)
    requires Looking(st, s)
    ensures CountInv(TryP(st, s))
  {
    hide ReadyInv, WaitInv, CpuInv, QueueInv, SemInv;
    forall r | r in TryP(st, s).sems ensures SemInv(TryP(st, s), r) {
      if r != s { TryCountsOther(st, s, r); } else { TryCountsOwn(st, s); }
    }
  }

  lemma TryQueues(st: State, s: nat)
    requires Looking(st, s)
    ensures QueueInv(TryP(st, s))
  {
    hide CountInv, ReadyInv, WaitInv;
    var st' := TryP(st, s);
    if st.sems[s].value == 0 {
      NoDupAppend(st.sems[s].queue, st.current);
    }
    forall r | r in st'.sems
      ensures NoDup(st'.sems[r].queue)
      ensures forall t :: t in st'.sems[r].queue ==> (t in st.sems[r].queue && t != st.current) || (r == s && t == st.current && st.sems[s].value == 0)
    {
    }
    hide NoDup;
  }

  /** A thread still in the loop of P, as WaitInv has it. */
  ghost predicate WaitsRight(st: State, t: nat)
    requires t in st.waiting
  {
    && t in st.threads && st.waiting[t] in st.sems && st.threads[t] != JustCreated
    && (st.threads[t] == Blocked ==> t in st.sems[st.waiting[t]].queue)
  }

  lemma TryWaitsRight(st: State, s: nat, t: nat)
    requires Looking(st, s) && t in TryP(st, s).waiting
    ensures WaitsRight(TryP(st, s), t)
  {
    hide CountInv, ReadyInv, QueueInv, NoDup;
    assert t != st.current ==> t in st.waiting && WaitsRight(st, t);
  }

  lemma TryBlocked(st: State, s: nat, t: nat)
    requires Looking(st, s) && t in TryP(st, s).threads && TryP(st, s).threads[t] == Blocked
    ensures t in TryP(st, s).waiting || Leaving(TryP(st, s), t)
  {
    hide CountInv, ReadyInv, QueueInv, NoDup;
  }

  lemma TryWaiting(st: State, s: nat)
    requires Looking(st, s)
    ensures WaitInv(TryP(st, s))
  {
    hide CountInv, ReadyInv, QueueInv, CpuInv, TryP, Leaving;
    var st' := TryP(st, s);
    forall t | t in st'.waiting ensures WaitsRight(st', t) { TryWaitsRight(st, s, t); }
    forall t | t in st'.threads && st'.threads[t] == Blocked ensures t in st'.waiting || Leaving(st', t) { TryBlocked(st, s, t); }
  }

  lemma TryKeepsInv(st: State, s: nat)
    requires Looking(st, s)
    ensures Inv(TryP(st, s))
  {
    hide CountInv, QueueInv, WaitInv, NoDup;
    TryCounts(st, s);
    TryQueues(st, s);
    TryWaiting(st, s);
  }

  lemma SameWaiting(st: State, st': State)
    requires CountInv(st) && st'.sems == st.sems && st'.waiting == st.waiting
    ensures CountInv(st')
  {
    forall s | s in st.sems ensures SemInv(st', s) {
      assert Woken(st', s) == Woken(st, s);
    }
  }

  lemma ReapWaiting(st: State)
    requires CpuInv(st) && QueueInv(st) && WaitInv(st) && st.phase.Arriving?
    ensures QueueInv(CheckToBeDestroyed(st).(phase := InThread)) && WaitInv(CheckToBeDestroyed(st).(phase := InThread))
  {
    hide NoDup;
  }

  lemma ReapKeepsInv(st: State)
    requires Inv(st) && st.phase.Arriving?
    ensures LoopInv(CheckToBeDestroyed(st).(phase := InThread))
  {
    hide CountInv, QueueInv, WaitInv, NoDup;
    SameWaiting(st, CheckToBeDestroyed(st).(phase := InThread));
    ReapWaiting(st);
  }

  lemma ArriveKeepsInv(st: State)
    requires Inv(st) && st.phase.Arriving?
    ensures Inv(DoArrive(st))
  {
    hide ReadyInv, CountInv, QueueInv, TryP;
    ReapKeepsInv(st);
    if st.current in st.waiting {
      TryKeepsInv(CheckToBeDestroyed(st).(phase := InThread), st.waiting[st.current]);
    }
  }

  /** Nothing changes for the blocked threads. */
  lemma SameBlocked(st: State, st': State)
    requires QueueInv(st) && WaitInv(st) && st'.sems == st.sems && st'.waiting == st.waiting && st'.threads.Keys == st.threads.Keys
    requires forall t :: t in st.threads && st.threads[t] != st'.threads[t] ==>
               st.threads[t] != Blocked && st'.threads[t] != Blocked && st'.threads[t] != JustCreated
    requires forall t :: Leaving(st, t) ==> Leaving(st', t)
    ensures QueueInv(st') && WaitInv(st')
  {
    hide NoDup;
  }

  lemma DispatchKeepsInv(st: State)
    requires Inv(st) && Enabled(st, Dispatch)
    ensures Inv(Next(st, Dispatch))
  {
    hide CountInv, QueueInv, WaitInv, NoDup;
    SameWaiting(st, Next(st, Dispatch));
    NoDupTail(st.ready);
    SameBlocked(st, Next(st, Dispatch));
  }

  lemma YieldReady(st: State)
    requires ReadyInv(st) && CpuInv(st) && st.phase.InThread? && st.ready != []
    ensures ReadyInv(DoYield(st)) && CpuInv(DoYield(st))
  {
    hide NoDup;
    NoDupTail(st.ready);
    NoDupAppend(st.ready[1..], st.current);
  }

  lemma YieldKeepsInv(st: State)
    requires Inv(st) && Enabled(st, Yield)
    ensures Inv(DoYield(st))
  {
    hide CountInv, QueueInv, WaitInv, NoDup;
    if st.ready != [] {
      SameWaiting(st, DoYield(st));
      YieldReady(st);
      SameBlocked(st, DoYield(st));
    }
  }

  lemma FinishKeepsInv(st: State)
    requires Inv(st) && Enabled(st, Finish)
    ensures Inv(Sleep(st, true))
  {
    hide CountInv, NoDup;
    SameWaiting(st, Sleep(st, true));
  }

  lemma NewSemaphoreKeepsInv(st: State, s: nat, initial: int)
    requires Inv(st) && Enabled(st, NewSemaphore(s, initial))
    ensures Inv(Next(st, NewSemaphore(s, initial)))
  {
    var st' := Next(st, NewSemaphore(s, initial));
    forall r | r in st'.sems ensures SemInv(st', r) {
      if r != s { assert Woken(st', r) == Woken(st, r); }
    }
    hide CountInv;
  }

  lemma NewThreadKeepsInv(st: State, t: nat)
    requires Inv(st) && Enabled(st, NewThread(t))
    ensures Inv(Next(st, NewThread(t)))
  {
    hide CountInv, NoDup;
    SameWaiting(st, Next(st, NewThread(t)));
    hide CountInv;
  }

  lemma ForkKeepsInv(st: State, t: nat)
    requires Inv(st) && Enabled(st, Fork(t))
    ensures Inv(Next(st, Fork(t)))
  {
    hide CountInv, NoDup;
    SameWaiting(st, Next(st, Fork(t)));
    NoDupAppend(st.ready, t);
  }

  /** Every step keeps the invariant. */
  lemma NextKeepsInv(st: State, step: Step)
    requires Inv(st) && Enabled(st, step)
    ensures Asserted(st, step) && Inv(Next(st, step))
  {
    InvAsserts(st, step);
    hide TryP, DoV, DoYield, DoArrive, ReadyInv, QueueInv, WaitInv, CountInv;
    match step
    case P(s) => TryKeepsInv(st, s);
    case V(s) => WakeKeepsInv(st, s);
    case Yield => YieldKeepsInv(st);
    case Finish => FinishKeepsInv(st);
    case Dispatch => DispatchKeepsInv(st);
    case Arrive => ArriveKeepsInv(st);
    case NewThread(t) => NewThreadKeepsInv(st, t);
    case Fork(t) => ForkKeepsInv(st, t);
    case NewSemaphore(s, initial) => NewSemaphoreKeepsInv(st, s, initial);
  }

  // Whole runs.

  /** The kernel after boot: the main thread is running, and there is nothing else. */
  ghost predicate Boot(st: State) {
    st == State(map[st.current := Running], st.current, InThread, [], None, map[], map[])
  }

  ghost predicate IsRun(states: seq<State>, steps: seq<Step>) {
    && |states| == |steps| + 1
    && forall i :: 0 <= i < |steps| ==> Happens(states[i], steps[i], states[i + 1])
  }

  ghost predicate Happens(st: State, step: Step, st': State) {
    Enabled(st, step) && Asserted(st, step) && st' == Next(st, step)
  }

  lemma BootInv(st: State)
    requires Boot(st)
    ensures Inv(st)
  {
  }

  /** The invariant holds throughout every run from boot, and no assertion of the source ever fails:
      whatever can happen next meets it. */
  lemma {:induction false} RunsAreSafe(states: seq<State>, steps: seq<Step>, n: nat, next: Step)
    requires IsRun(states, steps) && Boot(states[0]) && n <= |steps|
    ensures Inv(states[n]) && (Enabled(states[n], next) ==> Asserted(states[n], next))
  {
    hide Inv;
    if n == 0 {
      BootInv(states[0]);
    } else {
      RunsAreSafe(states, steps, n - 1, next);
      assert Happens(states[n - 1], steps[n - 1], states[n]);
      NextKeepsInv(states[n - 1], steps[n - 1]);
    }
    if Enabled(states[n], next) {
      InvAsserts(states[n], next);
    }
  }

  // What the invariant says about threads.

  /** The places a thread can be. */
  datatype Place = Fresh | OnCpu | ReadyAt(k: nat) | QueuedAt(s: nat, k: nat) | OnTheWayOut

  ghost predicate At(st: State, t: nat, p: Place) {
    match p
    case Fresh => t in st.threads && st.threads[t] == JustCreated
    case OnCpu => t == st.current && !st.phase.Sleeping?
    case ReadyAt(k) => k < |st.ready| && st.ready[k] == t
    case QueuedAt(s, k) => s in st.sems && k < |st.sems[s].queue| && st.sems[s].queue[k] == t
    case OnTheWayOut => Leaving(st, t)
  }

  function StatusAt(p: Place): Status {
    match p
    case Fresh => JustCreated
    case OnCpu => Running
    case ReadyAt(k) => Ready
    case QueuedAt(s, k) => Blocked
    case OnTheWayOut => Blocked
  }

  lemma AtMostOnePlace(st: State, t: nat, p: Place, q: Place)
    requires Inv(st) && At(st, t, p) && At(st, t, q)
    ensures t in st.threads && st.threads[t] == StatusAt(p) && p == q
  {
    hide CountInv;
    StatusOfPlace(st, t, p);
    StatusOfPlace(st, t, q);
    match p
    case ReadyAt(k) =>
    case QueuedAt(s, k) => QueuedElsewhere(st, t, s, k, q);
    case OnTheWayOut => if q.QueuedAt? { QueuedElsewhere(st, t, q.s, q.k, p); }
    case _ =>
  }

  lemma StatusOfPlace(st: State, t: nat, p: Place)
    requires Inv(st) && At(st, t, p)
    ensures t in st.threads && st.threads[t] == StatusAt(p)
  {
    hide CountInv, NoDup;
    if p.QueuedAt? { assert t in st.sems[p.s].queue; }
    if p.ReadyAt? { assert t in st.ready; }
  }

  lemma QueuedElsewhere(st: State, t: nat, s: nat, k: nat, q: Place)
    requires Inv(st) && At(st, t, QueuedAt(s, k)) && At(st, t, q) && StatusAt(q) == Blocked
    ensures q == QueuedAt(s, k)
  {
    hide CountInv, ReadyInv;
    assert t in st.sems[s].queue;
    if q.QueuedAt? {
      assert t in st.sems[q.s].queue;
    }
  }

  lemma PlaceOf(st: State, t: nat) returns (p: Place)
    requires Inv(st) && t in st.threads
    ensures At(st, t, p) && st.threads[t] == StatusAt(p)
    ensures forall q :: At(st, t, q) ==> q == p
  {
    match st.threads[t]
    case JustCreated => p := Fresh;
    case Running => p := OnCpu;
    case Ready => var k :| 0 <= k < |st.ready| && st.ready[k] == t; p := ReadyAt(k);
    case Blocked =>
      if Leaving(st, t) {
        p := OnTheWayOut;
      } else {
        var s := st.waiting[t];
        var k :| 0 <= k < |st.sems[s].queue| && st.sems[s].queue[k] == t;
        p := QueuedAt(s, k);
      }
    forall q | At(st, t, q) ensures q == p { AtMostOnePlace(st, t, p, q); }
  }

  /** In every run, at every moment, every thread is in exactly one place, and its status says which
      kind. */
  lemma ExactlyOnePlace(states: seq<State>, steps: seq<Step>, n: nat, t: nat) returns (p: Place)
    requires IsRun(states, steps) && Boot(states[0]) && n <= |steps| && t in states[n].threads
    ensures At(states[n], t, p) && states[n].threads[t] == StatusAt(p)
    ensures forall q :: At(states[n], t, q) ==> q == p
  {
    hide Inv, At, Leaving;
    RunsAreSafe(states, steps, n, Yield);
    p := PlaceOf(states[n], t);
  }

  /** A woken thread is not lost: it is ready, or already on its way back to the test in P. */
  lemma WokenWillLook(st: State, s: nat, t: nat)
    requires Inv(st) && s in st.sems && t in Woken(st, s)
    ensures t in st.ready || (t == st.current && st.phase.Arriving?)
  {
    hide CountInv, NoDup;
  }

  /** No lost wakeup, in any run: while threads sleep on a semaphore its value is at most the number of
      woken ones, each of which is ready or already on its way back to the test. */
  lemma NoLostWakeup(states: seq<State>, steps: seq<Step>, n: nat, s: nat)
    requires IsRun(states, steps) && Boot(states[0]) && n <= |steps| && s in states[n].sems && states[n].sems[s].queue != []
    ensures states[n].sems[s].value <= |Woken(states[n], s)|
    ensures forall t :: t in Woken(states[n], s) ==> t in states[n].ready || (t == states[n].current && states[n].phase.Arriving?)
  {
    RunsAreSafe(states, steps, n, Yield);
    assert SemInv(states[n], s);
    forall t | t in Woken(states[n], s) ensures t in states[n].ready || (t == states[n].current && states[n].phase.Arriving?) {
      WokenWillLook(states[n], s, t);
    }
  }

  // What P does.

  /** The current thread tries to take the semaphore in this step: it calls P, or comes back to the test
      in it. */
  ghost predicate Tries(st: State, step: Step, s: nat) {
    s in st.sems && (step == P(s) || (step == Arrive && st.current in st.waiting && st.waiting[st.current] == s))
  }

  /** After the step the thread that was current is running and not in P. */
  ghost predicate OutOfP(st: State, st': State) {
    st'.current == st.current && st'.phase.InThread? && st.current !in st'.waiting
  }

  /** It is blocked, last in the semaphore's queue. */
  ghost predicate Sleeps(st: State, st': State, s: nat) {
    && st.current in st'.threads && st'.threads[st.current] == Blocked && st'.phase == Sleeping(false)
    && s in st.sems && s in st'.sems && st'.sems[s].queue == st.sems[s].queue + [st.current]
    && st.current in st'.waiting && st'.waiting[st.current] == s
  }

  /** An attempt takes one from the semaphore and returns if its value is positive, and otherwise leaves the
      value at 0 and puts the thread to sleep at the end of the queue. */
  lemma TryOutcome(st: State, step: Step, st': State, s: nat)
    requires Inv(st) && Happens(st, step, st') && Tries(st, step, s)
    ensures s in st'.sems
    ensures if st.sems[s].value > 0 then OutOfP(st, st') && st'.sems[s] == st.sems[s].(value := st.sems[s].value - 1)
            else Sleeps(st, st', s) && st'.sems[s].value == st.sems[s].value == 0
    ensures OutOfP(st, st') <==> st.sems[s].value > 0
  {
    hide ReadyInv, QueueInv, WaitInv;
    assert SemInv(st, s);
  }

  // Conservation.

  /** The step completes a P on the semaphore: the thread tried, and is out of P after it. */
  ghost predicate CompletesP(st: State, step: Step, st': State, s: nat) {
    Tries(st, step, s) && OutOfP(st, st')
  }

  ghost function CountV(steps: seq<Step>, n: nat, s: nat): nat
    requires n <= |steps|
  {
    if n == 0 then 0 else CountV(steps, n - 1, s) + if steps[n - 1] == V(s) then 1 else 0
  }

  ghost function CountP(states: seq<State>, steps: seq<Step>, n: nat, s: nat): nat
    requires IsRun(states, steps) && n <= |steps|
  {
    if n == 0 then 0 else CountP(states, steps, n - 1, s) + if CompletesP(states[n - 1], steps[n - 1], states[n], s) then 1 else 0
  }

  lemma OtherCounts(st: State, step: Step, st': State, s: nat)
    requires Happens(st, step, st') && !Tries(st, step, s)
    ensures s in st.sems ==> s in st'.sems && st'.sems[s].value == st.sems[s].value + (if step == V(s) then 1 else 0)
    ensures s !in st.sems && s in st'.sems ==> step == NewSemaphore(s, st'.sems[s].value)
    ensures s !in st.sems ==> step != V(s)
  {
  }

  lemma StepCounts(st: State, step: Step, st': State, s: nat)
    requires Inv(st) && Happens(st, step, st')
    ensures s in st.sems ==> s in st'.sems
    ensures s in st.sems ==>
              st'.sems[s].value == st.sems[s].value + (if step == V(s) then 1 else 0) - (if CompletesP(st, step, st', s) then 1 else 0)
    ensures s !in st.sems && s in st'.sems ==> step == NewSemaphore(s, st'.sems[s].value)
    ensures s !in st.sems ==> step != V(s)
  {
    hide Next, Inv, OutOfP, Sleeps;
    if Tries(st, step, s) { TryOutcome(st, step, st', s); } else { OtherCounts(st, step, st', s); }
  }

  /** The i-th step made the semaphore, with the value its present one adds up from. */
  ghost predicate AddsUp(states: seq<State>, steps: seq<Step>, n: nat, s: nat, i: int)
    requires IsRun(states, steps) && n <= |steps| && s in states[n].sems
  {
    && 0 <= i < n && steps[i].NewSemaphore? && steps[i].s == s
    && states[n].sems[s].value == steps[i].initial + CountV(steps, n, s) - CountP(states, steps, n, s)
  }

  lemma {:induction false} CountsAddUp(states: seq<State>, steps: seq<Step>, n: nat, s: nat)
    requires IsRun(states, steps) && Boot(states[0]) && n <= |steps|
    ensures s !in states[n].sems ==> CountV(steps, n, s) == 0 && CountP(states, steps, n, s) == 0
    ensures s in states[n].sems ==> exists i :: AddsUp(states, steps, n, s, i)
  {
    hide Next, Inv;
    if n > 0 {
      CountsAddUp(states, steps, n - 1, s);
      RunsAreSafe(states, steps, n - 1, Yield);
      assert Happens(states[n - 1], steps[n - 1], states[n]);
      StepCounts(states[n - 1], steps[n - 1], states[n], s);
      if s in states[n - 1].sems {
        var i :| AddsUp(states, steps, n - 1, s, i);
        assert AddsUp(states, steps, n, s, i);
      } else if s in states[n].sems {
        assert AddsUp(states, steps, n, s, n - 1);
      }
    }
  }

  /** In every run a semaphore's value is what it was created with, plus the V's done, minus the P's
      completed, and never negative. */
  lemma SemaphoreConservation(states: seq<State>, steps: seq<Step>, n: nat, s: nat) returns (i: nat)
    requires IsRun(states, steps) && Boot(states[0]) && n <= |steps| && s in states[n].sems
    ensures i < n && steps[i].NewSemaphore? && steps[i].s == s
    ensures states[n].sems[s].value == steps[i].initial + CountV(steps, n, s) - CountP(states, steps, n, s) >= 0
  {
    RunsAreSafe(states, steps, n, Yield);
    assert SemInv(states[n], s);
    CountsAddUp(states, steps, n, s);
    i :| AddsUp(states, steps, n, s, i);
  }

  /** In every run an attempt at P returns if and only if the value is positive, and otherwise the thread
      sleeps at the end of the queue. */
  lemma ReturnsIffPositive(states: seq<State>, steps: seq<Step>, n: nat, s: nat)
    requires IsRun(states, steps) && Boot(states[0]) && n < |steps| && Tries(states[n], steps[n], s)
    ensures OutOfP(states[n], states[n + 1]) <==> states[n].sems[s].value > 0
    ensures OutOfP(states[n], states[n + 1]) || Sleeps(states[n], states[n + 1], s)
  {
    hide Next, Inv, OutOfP, Sleeps;
    RunsAreSafe(states, steps, n, Yield);
    assert Happens(states[n], steps[n], states[n + 1]);
    TryOutcome(states[n], steps[n], states[n + 1], s);
  }

  // Waiters are woken in the order in which they went to sleep.

  ghost predicate Wakes(st: State, step: Step, s: nat) {
    step == V(s) && s in st.sems && st.sems[s].queue != []
  }

  ghost function WakeCount(states: seq<State>, steps: seq<Step>, m: nat, n: nat, s: nat): nat
    requires IsRun(states, steps) && m <= n <= |steps|
  {
    if n == m then 0
    else WakeCount(states, steps, m, n - 1, s) + if Wakes(states[n - 1], steps[n - 1], s) then 1 else 0
  }

  /** A V takes the first waiter off the queue and makes it the last ready thread; no other step takes a
      waiter off. */
  lemma StepMovesQueue(st: State, step: Step, st': State, s: nat)
    requires Happens(st, step, st') && s in st.sems
    ensures s in st'.sems
    ensures if Wakes(st, step, s) then
              && st'.sems[s].queue == st.sems[s].queue[1..] && st'.ready == st.ready + [st.sems[s].queue[0]]
              && st.sems[s].queue[0] in st'.threads && st'.threads[st.sems[s].queue[0]] == Ready
            else st.sems[s].queue <= st'.sems[s].queue
  {
  }

  /** In every run the thread at position k of a semaphore's queue moves up with each V ... */
  lemma {:induction false} WaiterMovesUp(states: seq<State>, steps: seq<Step>, m: nat, k: nat, n: nat, s: nat)
    requires IsRun(states, steps) && m <= n <= |steps| && s in states[m].sems && k < |states[m].sems[s].queue|
    requires WakeCount(states, steps, m, n, s) <= k
    ensures s in states[n].sems && k - WakeCount(states, steps, m, n, s) < |states[n].sems[s].queue|
    ensures states[n].sems[s].queue[k - WakeCount(states, steps, m, n, s)] == states[m].sems[s].queue[k]
  {
    hide Next;
    if n > m {
      WaiterMovesUp(states, steps, m, k, n - 1, s);
      assert Happens(states[n - 1], steps[n - 1], states[n]);
      StepMovesQueue(states[n - 1], steps[n - 1], states[n], s);
    }
  }

  /** ... and is made ready by the one that k came before. */
  lemma WokenInTurn(states: seq<State>, steps: seq<Step>, m: nat, k: nat, n: nat, s: nat)
    requires IsRun(states, steps) && m <= n < |steps| && s in states[m].sems && k < |states[m].sems[s].queue|
    requires steps[n] == V(s) && WakeCount(states, steps, m, n, s) == k
    ensures states[n + 1].ready == states[n].ready + [states[m].sems[s].queue[k]]
  {
    hide Next;
    WaiterMovesUp(states, steps, m, k, n, s);
    assert Happens(states[n], steps[n], states[n + 1]);
    StepMovesQueue(states[n], steps[n], states[n + 1], s);
  }

  // Coming and going.

  lemma WokenExists(st: State, step: Step)
    requires Inv(st) && step.V? && step.s in st.sems && st.sems[step.s].queue != []
    ensures st.sems[step.s].queue[0] in st.threads
  {
    hide CountInv, ReadyInv, WaitInv, NoDup;
    assert st.sems[step.s].queue[0] in st.sems[step.s].queue;
  }

  lemma ThreadsMade(st: State, step: Step, st': State, t: nat)
    requires Inv(st) && Happens(st, step, st')
    ensures t !in st.threads && t in st'.threads <==> step == NewThread(t)
    ensures step == NewThread(t) ==> st'.threads[t] == JustCreated
    ensures step == Fork(t) ==> t in st'.threads && st'.threads[t] == Ready && st'.ready == st.ready + [t]
  {
    if step.V? && st.sems[step.s].queue != [] { WokenExists(st, step); }
    hide QueueInv, WaitInv, CountInv, NoDup;
    if step.Dispatch? || (step.Yield? && st.ready != []) { assert st.ready[0] in st.ready; }
  }

  lemma ThreadsGone(st: State, step: Step, st': State, t: nat)
    requires Inv(st) && Happens(st, step, st')
    ensures t in st.threads && t !in st'.threads <==> step == Arrive && st.toBeDestroyed == Some(t)
  {
    hide QueueInv, WaitInv, CountInv, NoDup, ReadyInv;
  }

  /** A thread is made by NewThread, becomes ready by Fork, at the end of the list, and is gone once the
      thread switched to after its Finish has arrived. */
  lemma ThreadsComeAndGo(st: State, step: Step, st': State, t: nat)
    requires Inv(st) && Happens(st, step, st')
    ensures t !in st.threads && t in st'.threads <==> step == NewThread(t)
    ensures step == NewThread(t) ==> st'.threads[t] == JustCreated
    ensures step == Fork(t) ==> t in st'.threads && st'.threads[t] == Ready && st'.ready == st.ready + [t]
    ensures t in st.threads && t !in st'.threads <==> step == Arrive && st.toBeDestroyed == Some(t)
  {
    hide Inv, Next;
    ThreadsMade(st, step, st', t);
    ThreadsGone(st, step, st', t);
  }

  lemma FinishedIsReaped(st: State, step: Step, st': State, t: nat)
    requires Inv(st) && Happens(st, step, st')
    ensures step == Finish <==> st.phase.InThread? && st'.phase == Sleeping(true)
    ensures step == Finish ==> st'.current == st.current
    ensures st.phase == Sleeping(true) && st'.phase != st.phase ==> step == Dispatch && st'.toBeDestroyed == Some(st.current) && st'.phase.Arriving?
    ensures st.toBeDestroyed == Some(t) ==> step == Arrive && t !in st'.threads
  {
    hide QueueInv, WaitInv, CountInv, ReadyInv;
  }

  ghost predicate Gone(st: State, t: nat) { Leaving(st, t) || t !in st.threads }

  lemma GoneStays(st: State, step: Step, st': State, t: nat)
    requires Inv(st) && Happens(st, step, st') && step != NewThread(t)
    requires Gone(st, t) || (step == Finish && st.current == t)
    ensures Gone(st', t)
  {
    hide Next, Inv;
    FinishedIsReaped(st, step, st', t);
    ThreadsComeAndGo(st, step, st', t);
    if st.phase.Sleeping? && st'.phase == st.phase { SleeperStays(st, step, st'); }
  }

  lemma SleeperStays(st: State, step: Step, st': State)
    requires Happens(st, step, st') && st.phase.Sleeping? && st'.phase == st.phase
    ensures st'.current == st.current
  {
  }

  lemma GoneNotRunning(st: State, t: nat)
    requires Inv(st) && Gone(st, t)
    ensures t !in st.ready && (t == st.current ==> st.phase.Sleeping?)
  {
    hide QueueInv, WaitInv, CountInv, NoDup;
  }

  /** In every run a thread that has finished is never ready and never runs again, unless one is made anew
      under its name. */
  lemma {:induction false} FinishedForGood(states: seq<State>, steps: seq<Step>, m: nat, n: nat, t: nat)
    requires IsRun(states, steps) && Boot(states[0]) && m < n <= |steps| && steps[m] == Finish && states[m].current == t
    requires forall i :: m <= i < n ==> steps[i] != NewThread(t)
    ensures Gone(states[n], t) && t !in states[n].ready && (t == states[n].current ==> states[n].phase.Sleeping?)
  {
    hide Next, Inv, Gone;
    if n > m + 1 { FinishedForGood(states, steps, m, n - 1, t); }
    RunsAreSafe(states, steps, n - 1, Yield);
    RunsAreSafe(states, steps, n, Yield);
    assert Happens(states[n - 1], steps[n - 1], states[n]);
    GoneStays(states[n - 1], steps[n - 1], states[n], t);
    GoneNotRunning(states[n], t);
  }

  // First come, first served.

  ghost predicate Dispatches(st: State, step: Step) {
    step.Dispatch? || (step.Yield? && st.ready != [])
  }

  /** Dispatches from moment m to moment n. */
  ghost function DispatchCount(states: seq<State>, steps: seq<Step>, m: nat, n: nat): nat
    requires IsRun(states, steps) && m <= n <= |steps|
  {
    if n == m then 0
    else DispatchCount(states, steps, m, n - 1) + if Dispatches(states[n - 1], steps[n - 1]) then 1 else 0
  }

  lemma StepMovesReady(st: State, step: Step, st': State)
    requires Happens(st, step, st')
    ensures if Dispatches(st, step) then st.ready != [] && st.ready[1..] <= st'.ready && st'.current == st.ready[0]
            else st.ready <= st'.ready
  {
  }

  /** A thread at position k of the ready list moves up one place with each dispatch ... */
  lemma {:induction false} ReadyMovesUp(states: seq<State>, steps: seq<Step>, m: nat, k: nat, n: nat)
    requires IsRun(states, steps) && m <= n <= |steps| && k < |states[m].ready| && DispatchCount(states, steps, m, n) <= k
    ensures k - DispatchCount(states, steps, m, n) < |states[n].ready|
    ensures states[n].ready[k - DispatchCount(states, steps, m, n)] == states[m].ready[k]
  {
    hide Next;
    if n > m {
      ReadyMovesUp(states, steps, m, k, n - 1);
      assert Happens(states[n - 1], steps[n - 1], states[n]);
      StepMovesReady(states[n - 1], steps[n - 1], states[n]);
    }
  }

  lemma ReadyDistinct(st: State)
    requires Inv(st)
    ensures NoDup(st.ready)
  {
    hide CpuInv, QueueInv, WaitInv, CountInv;
  }

  /** ... and so is dispatched after exactly k others: it is the thread of the dispatch that k came
      before, and of none of those. */
  lemma DispatchedInTurn(states: seq<State>, steps: seq<Step>, m: nat, k: nat, n: nat)
    requires IsRun(states, steps) && Boot(states[0]) && m <= n < |steps| && k < |states[m].ready|
    requires Dispatches(states[n], steps[n]) && DispatchCount(states, steps, m, n) <= k
    ensures states[n + 1].current == states[m].ready[k] <==> DispatchCount(states, steps, m, n) == k
  {
    hide Next, LoopInv, Dispatches;
    RunsAreSafe(states, steps, n, Yield);
    ReadyMovesUp(states, steps, m, k, n);
    assert Happens(states[n], steps[n], states[n + 1]);
    StepMovesReady(states[n], steps[n], states[n + 1]);
    ReadyDistinct(states[n]);
  }
}

/** The same machine with its state updated in place, section by section. */
module Threads {
  import opened Options
  import opened ThreadSpec

  class Kernel {
    var threads: map<nat, Status>
    var currentThread: nat
    var phase: Phase
    var readyList: seq<nat>
    var toBeDestroyed: Option<nat>
    var sems: map<nat, Semaphore>
    var waiting: map<nat, nat>

    ghost function View(): State
      reads this
    {
      State(threads, currentThread, phase, readyList, toBeDestroyed, sems, waiting)
    }

    constructor (mainThread: nat)
      ensures Boot(View()) && Inv(View()) && currentThread == mainThread
    {
      threads, currentThread, phase := map[mainThread := Running], mainThread, InThread;
      readyList, toBeDestroyed, sems, waiting := [], None, map[], map[];
      new;
      BootInv(View());
    }

    // The scheduler.

    method ReadyToRun(t: nat)
      modifies `threads, `readyList
      ensures View() == ThreadSpec.ReadyToRun(old(View()), t)
    {
      threads := threads[t := Ready];
      readyList := readyList + [t];
    }

    method FindNextToRun() returns (next: Option<nat>)
      modifies `readyList
      ensures old(readyList) == [] ==> next.None? && readyList == []
      ensures old(readyList) != [] ==> next.Some? && [next.value] + readyList == old(readyList)
    {
      if readyList == [] {
        return None;
      }
      next := Some(readyList[0]);
      readyList := readyList[1..];
    }

    method Run(next: nat, finishing: bool)
      requires finishing ==> toBeDestroyed.None?
      modifies `toBeDestroyed, `threads, `currentThread, `phase
      ensures View() == ThreadSpec.Run(old(View()), next, finishing)
    {
      var oldThread := currentThread;
      if finishing {
        toBeDestroyed := Some(oldThread);
      }
      currentThread := next;
      threads := threads[next := Running];
      phase := Arriving;
    }

    method CheckToBeDestroyed()
      requires toBeDestroyed != Some(currentThread)
      modifies `threads, `toBeDestroyed
      ensures View() == ThreadSpec.CheckToBeDestroyed(old(View()))
    {
      if toBeDestroyed.Some? {
        threads := threads - {toBeDestroyed.value};
        toBeDestroyed := None;
      }
    }

    // Threads.

    method Create(t: nat)
      requires Inv(View()) && Enabled(View(), NewThread(t))
      modifies `threads
      ensures Inv(View()) && Happens(old(View()), NewThread(t), View())
    {
      hide Inv;
      NextKeepsInv(View(), NewThread(t));
      threads := threads[t := JustCreated];
    }

    method Fork(t: nat)
      requires Inv(View()) && Enabled(View(), Step.Fork(t))
      modifies `threads, `readyList
      ensures Inv(View()) && Happens(old(View()), Step.Fork(t), View())
    {
      hide Inv;
      NextKeepsInv(View(), Step.Fork(t));
      ReadyToRun(t);
    }

    method Yield()
      requires Inv(View()) && phase.InThread?
      modifies this
      ensures Inv(View()) && Happens(old(View()), Step.Yield, View())
    {
      hide Inv;
      NextKeepsInv(View(), Step.Yield);
      var next := FindNextToRun();
      if next.Some? {
        assert readyList == old(readyList)[1..];
        ReadyToRun(currentThread);
        Run(next.value, false);
      }
    }

    /** Sleep up to its loop. */
    method Sleep(finishing: bool)
      modifies `threads, `phase
      ensures View() == ThreadSpec.Sleep(old(View()), finishing)
    {
      threads := threads[currentThread := Blocked];
      phase := Sleeping(finishing);
    }

    /** One turn of the loop of Sleep: switch to the next thread, if there is one; otherwise Idle waits
        for an interrupt, whose handler may call V. */
    method SleepLoop() returns (switched: bool)
      requires Inv(View()) && phase.Sleeping?
      modifies this
      ensures Inv(View()) && switched == (old(readyList) != [])
      ensures if switched then Happens(old(View()), Dispatch, View()) else View() == old(View())
    {
      hide Inv;
      if readyList != [] {
        NextKeepsInv(View(), Dispatch);
        InvAsserts(View(), Dispatch);
      }
      var next := FindNextToRun();
      switched := next.Some?;
      if switched {
        assert readyList == old(readyList)[1..];
        Run(next.value, phase.finishing);
      }
    }

    method Finish()
      requires Inv(View()) && phase.InThread?
      modifies this
      ensures Inv(View()) && Happens(old(View()), Step.Finish, View())
    {
      hide Inv;
      NextKeepsInv(View(), Step.Finish);
      Sleep(true);
    }

    /** After SWITCH, in the new current thread: the end of Run or Begin, and back into P's loop if it
        came from there. */
    method Arrive()
      requires Inv(View()) && phase.Arriving?
      modifies this
      ensures Inv(View()) && Happens(old(View()), Step.Arrive, View())
    {
      hide Inv;
      NextKeepsInv(View(), Step.Arrive);
      InvAsserts(View(), Step.Arrive);
      CheckToBeDestroyed();
      phase := InThread;
      if currentThread in waiting {
        TryP(waiting[currentThread]);
      }
    }

    // Semaphores.

    method NewSemaphore(s: nat, initialValue: int)
      requires Inv(View()) && Enabled(View(), Step.NewSemaphore(s, initialValue))
      modifies `sems
      ensures Inv(View()) && Happens(old(View()), Step.NewSemaphore(s, initialValue), View())
    {
      hide Inv;
      NextKeepsInv(View(), Step.NewSemaphore(s, initialValue));
      sems := sems[s := Semaphore(initialValue, [])];
    }

    method TryP(s: nat)
      requires s in sems
      modifies this
      ensures View() == ThreadSpec.TryP(old(View()), s)
    {
      var sem := sems[s];
      if sem.value == 0 {
        sems := sems[s := sem.(queue := sem.queue + [currentThread])];
        waiting := waiting[currentThread := s];
        Sleep(false);
      } else {
        sems := sems[s := sem.(value := sem.value - 1)];
        waiting := waiting - {currentThread};
      }
    }

    method P(s: nat)
      requires Inv(View()) && Enabled(View(), Step.P(s))
      modifies this
      ensures Inv(View()) && Happens(old(View()), Step.P(s), View())
    {
      hide Inv;
      NextKeepsInv(View(), Step.P(s));
      TryP(s);
    }

    method V(s: nat)
      requires Inv(View()) && Enabled(View(), Step.V(s))
      modifies this
      ensures Inv(View()) && Happens(old(View()), Step.V(s), View())
    {
      hide Inv;
      NextKeepsInv(View(), Step.V(s));
      Wake(s);
    }

    method Wake(s: nat)
      requires s in sems
      modifies `sems, `threads, `readyList
      ensures View() == DoV(old(View()), s)
    {
      var queue := sems[s].queue;
      if queue != [] {
        sems := sems[s := sems[s].(queue := queue[1..])];
        ReadyToRun(queue[0]);
      }
      sems := sems[s := sems[s].(value := sems[s].value + 1)];
      assert View().sems == DoV(old(View()), s).sems;
    }
  }
}
