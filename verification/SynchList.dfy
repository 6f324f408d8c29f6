/** The synchronized list (threads/synchlist.cc) on its lock and condition variable (threads/synch.cc):
    a machine in which any thread may take the next step. A step is a section that runs with
    interrupts off, or a single statement outside one. */
module SynchListSpec {
  import opened Options
  import opened ListSpec

  type Item = int

  /** Why a thread wants the lock: to append, to remove, or again after a wait. */
  datatype Goal = ToAppend(item: Item) | ToRemove | ToRecheck

  /** What a thread does once it has released the lock. */
  datatype After = AppendDone | RemoveDone(item: Item) | ThenWait

  /** Where in the code a thread is. */
  datatype Pc =
    | TryLock(goal: Goal)         // in P of the lock's semaphore, about to look at its value
    | LockAsleep(goal: Goal)      // in its queue
    | GotLock(goal: Goal)         // about to set lockHolder
    | AppendItem(item: Item)
    | Signal                      // about to look for a waiter
    | WakeWaiter(waiter: nat)     // about to V the waiter's semaphore
    | TestEmpty                   // at the head of RemoveFront's loop
    | TakeItem
    | Enqueue                     // in Wait, about to queue a semaphore
    | Unlock(after: After)        // about to clear lockHolder
    | FreeLock(after: After)      // about to V the lock's semaphore
    | TryWaiter                   // in P of its own semaphore
    | WaiterAsleep

  /** `pcs` has the threads inside Append or RemoveFront; `waiters` the values of the semaphores made
      by Wait, by thread. `appended` and `removed` are history. */
  datatype State = State(
    pcs: map<nat, Pc>,
    lockValue: int, lockQueue: seq<nat>, lockHolder: Option<nat>,
    waitQueue: seq<nat>, waiters: map<nat, int>,
    list: seq<Item>, appended: seq<Item>, removed: seq<Item>)

  function At(st: State, t: nat, pc: Pc): State {
    st.(pcs := st.pcs[t := pc])
  }

  /** Semaphore::V on the lock's semaphore. */
  function FreeTheLock(st: State): State {
    if st.lockQueue == [] then st.(lockValue := st.lockValue + 1)
    else
      var first := st.lockQueue[0];
      var st1 := st.(lockValue := st.lockValue + 1, lockQueue := st.lockQueue[1..]);
      if first in st.pcs && st.pcs[first].LockAsleep? then At(st1, first, TryLock(st.pcs[first].goal)) else st1
  }

  /** Semaphore::V on a waiter's semaphore, whose queue is the waiter itself or empty. */
  function WakeTheWaiter(st: State, w: nat): State
    requires w in st.waiters
  {
    var st1 := st.(waiters := st.waiters[w := st.waiters[w] + 1]);
    if w in st.pcs && st.pcs[w] == WaiterAsleep then At(st1, w, TryWaiter) else st1
  }

  datatype Step = StartAppend(t: nat, item: Item) | StartRemove(t: nat) | Go(t: nat)

  ghost predicate Enabled(st: State, step: Step) {
    match step
    case Go(t) => t in st.pcs && !st.pcs[t].LockAsleep? && !st.pcs[t].WaiterAsleep?
    case _ => step.t !in st.pcs
  }

  /** What the source asserts or relies on: the lock is held where it must be, the list is not empty
      when an element is taken, and the semaphores used exist. */
  ghost predicate Asserted(st: State, step: Step) {
    step.Go? && step.t in st.pcs ==>
      match st.pcs[step.t]
      case Signal | Enqueue | Unlock(_) => st.lockHolder == Some(step.t)
      case WakeWaiter(w) => w in st.waiters
      case TakeItem => st.list != []
      case TryWaiter => step.t in st.waiters
      case _ => true
  }

  ghost function Next(st: State, step: Step): State
    requires Enabled(st, step) && Asserted(st, step)
  {
    match step
    case StartAppend(t, item) => At(st, t, TryLock(ToAppend(item)))
    case StartRemove(t) => At(st, t, TryLock(ToRemove))
    case Go(t) => Advance(st, t)
  }

  ghost function Advance(st: State, t: nat): State
    requires Enabled(st, Go(t)) && Asserted(st, Go(t))
  {
    match st.pcs[t]
    case TryLock(goal) =>
      if st.lockValue == 0 then At(st.(lockQueue := st.lockQueue + [t]), t, LockAsleep(goal))
      else At(st.(lockValue := st.lockValue - 1), t, GotLock(goal))
    case GotLock(goal) =>
      var st1 := st.(lockHolder := Some(t));
      (match goal
       case ToAppend(item) => At(st1, t, AppendItem(item))
       case ToRemove => At(st1, t, TestEmpty)
       case ToRecheck => At(st1.(waiters := st.waiters - {t}), t, TestEmpty))
    case AppendItem(item) => At(st.(list := st.list + [item], appended := st.appended + [item]), t, Signal)
    case Signal =>
      if st.waitQueue == [] then At(st, t, Unlock(AppendDone))
      else At(st.(waitQueue := st.waitQueue[1..]), t, WakeWaiter(st.waitQueue[0]))
    case WakeWaiter(w) => At(WakeTheWaiter(st, w), t, Unlock(AppendDone))
    case TestEmpty => At(st, t, if st.list == [] then Enqueue else TakeItem)
    case TakeItem =>
      At(st.(list := st.list[1..], removed := st.removed + [st.list[0]]), t, Unlock(RemoveDone(st.list[0])))
    case Enqueue => At(st.(waitQueue := st.waitQueue + [t], waiters := st.waiters[t := 0]), t, Unlock(ThenWait))
    case Unlock(after) => At(st.(lockHolder := None), t, FreeLock(after))
    case FreeLock(after) =>
      var st1 := FreeTheLock(st);
      if after.ThenWait? then At(st1, t, TryWaiter) else st1.(pcs := st1.pcs - {t})
    case TryWaiter =>
      if st.waiters[t] == 0 then At(st, t, WaiterAsleep)
      else At(st.(waiters := st.waiters[t := st.waiters[t] - 1]), t, TryLock(ToRecheck))
  }

  // The invariant.

  predicate Holding(pc: Pc) {
    !pc.TryLock? && !pc.LockAsleep? && !pc.TryWaiter? && !pc.WaiterAsleep?
  }

  /** Whether a thread has the lock, and whether lockHolder has to say so: it does from just after P to
      just before V. */
  datatype Role = Without | Unnamed | Named

  function RoleOf(st: State, t: nat): Role {
    if t !in st.pcs || !Holding(st.pcs[t]) then Without
    else if st.pcs[t].GotLock? || st.pcs[t].FreeLock? then Unnamed
    else Named
  }

  /** Mutual exclusion: the lock is free or in the hands of exactly one thread. */
  ghost predicate LockInv(st: State) {
    && (st.lockValue == 0 || st.lockValue == 1)
    && (forall t :: !RoleOf(st, t).Without? ==> st.lockValue == 0)
    && ((forall t :: RoleOf(st, t).Without?) ==> st.lockValue == 1)
    && (forall t, u :: !RoleOf(st, t).Without? && !RoleOf(st, u).Without? ==> t == u)
    && (forall t: nat :: st.lockHolder == Some(t) <==> RoleOf(st, t) == Named)
  }

  ghost predicate IsLockAsleep(st: State, t: nat) { t in st.pcs && st.pcs[t].LockAsleep? }

  ghost predicate LockQueueInv(st: State) {
    NoDup(st.lockQueue) && forall t :: t in st.lockQueue <==> IsLockAsleep(st, t)
  }

  ghost predicate IsTrying(st: State, t: nat) { t in st.pcs && st.pcs[t].TryLock? }

  /** Nobody sleeps on a free lock unless some thread is about to take it. */
  ghost predicate LockWakeInv(st: State) {
    st.lockQueue != [] && st.lockValue > 0 ==> exists t :: IsTrying(st, t)
  }

  /** In Wait, between queueing its semaphore and passing it. */
  predicate Waiting(pc: Pc) {
    pc == Unlock(ThenWait) || pc == FreeLock(ThenWait) || pc == TryWaiter || pc == WaiterAsleep
  }

  ghost predicate IsWaiting(st: State, w: nat) { w in st.pcs && Waiting(st.pcs[w]) }

  ghost predicate IsAsleep(st: State, w: nat) { w in st.pcs && st.pcs[w].WaiterAsleep? }

  /** A Signal has taken the waiter off the queue and has not yet done its V. */
  ghost predicate Wakes(st: State, t: nat, w: nat) { t in st.pcs && st.pcs[t] == WakeWaiter(w) }

  ghost predicate BeingWoken(st: State, w: nat) { exists t :: Wakes(st, t, w) }

  /** A waiter's semaphore exists as long as anybody may use it, and is 1 exactly from its signal to
      its P. */
  ghost predicate WaitInv(st: State) {
    && NoDup(st.waitQueue)
    && (forall w :: w in st.waitQueue ==> IsWaiting(st, w))
    && (forall t, w :: Wakes(st, t, w) ==> IsWaiting(st, w) && w !in st.waitQueue)
    && (forall w :: IsWaiting(st, w) ==>
          && w in st.waiters
          && st.waiters[w] == (if w in st.waitQueue || BeingWoken(st, w) then 0 else 1)
          && (IsAsleep(st, w) ==> st.waiters[w] == 0))
  }

  ghost predicate IsAt(st: State, t: nat, pc: Pc) { t in st.pcs && st.pcs[t] == pc }

  /** Nothing is lost, duplicated or reordered, and what RemoveFront found when it looked still holds
      when it acts on it. */
  ghost predicate ListInv(st: State) {
    && st.appended == st.removed + st.list
    && (forall t :: IsAt(st, t, TakeItem) ==> st.list != [])
    && (forall t :: IsAt(st, t, Enqueue) ==> st.list == [])
  }

  /** RemoveFront has taken the item and not yet returned it. */
  ghost predicate HasTaken(st: State, t: nat, item: Item) {
    IsAt(st, t, Unlock(RemoveDone(item))) || IsAt(st, t, FreeLock(RemoveDone(item)))
  }

  /** It is the last one taken. */
  ghost predicate TakenInv(st: State) {
    forall t, item :: HasTaken(st, t, item) ==> st.removed != [] && st.removed[|st.removed| - 1] == item
  }

  /** A signalled waiter that has still to look at the list, or whoever is looking at it now. */
  ghost predicate IsComing(st: State, t: nat) {
    t in st.pcs &&
    match st.pcs[t]
    case TryLock(goal) => goal.ToRecheck?
    case LockAsleep(goal) => goal.ToRecheck?
    case GotLock(goal) => goal.ToRecheck?
    case TestEmpty | TakeItem => true
    case pc => Waiting(pc) && t !in st.waitQueue
  }

  ghost function Coming(st: State): set<nat> {
    set t | t in st.pcs && IsComing(st, t)
  }

  ghost predicate Signalling(st: State) { exists t :: IsAt(st, t, Signal) }

  /** Nobody waits while there are elements that no one comes for. */
  ghost predicate SignalInv(st: State) {
    st.waitQueue != [] ==> |st.list| <= |Coming(st)| + if Signalling(st) then 1 else 0
  }

  ghost predicate Inv(st: State) {
    LockInv(st) && LockQueueInv(st) && LockWakeInv(st) && WaitInv(st) && ListInv(st) && TakenInv(st) && SignalInv(st)
  }

  /** A step that can be taken without failing. */
  ghost predicate Happens(st: State, step: Step) { Enabled(st, step) && Asserted(st, step) }

  ghost predicate Becomes(st: State, step: Step, st': State) { Happens(st, step) && st' == Next(st, step) }

  lemma InvAsserts(st: State, step: Step)
    requires Inv(st) && Enabled(st, step)
    ensures Asserted(st, step)
  {
    hide NoDup, LockQueueInv, LockWakeInv, TakenInv, SignalInv;
    if step.Go? {
      assert RoleOf(st, step.t) == Named ==> st.lockHolder == Some(step.t);
      if st.pcs[step.t].WakeWaiter? { assert Wakes(st, step.t, st.pcs[step.t].waiter); }
      if st.pcs[step.t].TryWaiter? { assert IsWaiting(st, step.t); }
      if st.pcs[step.t].TakeItem? { assert IsAt(st, step.t, TakeItem); }
    }
  }

  // The lock.

  /** The steps that give and take roles. */
  ghost predicate LockStep(st: State, step: Step) {
    step.Go? && step.t in st.pcs &&
    match st.pcs[step.t]
    case TryLock(_) => st.lockValue != 0
    case GotLock(_) | Unlock(_) | FreeLock(_) => true
    case _ => false
  }

  /** What a step can do to another thread: wake it. */
  ghost predicate BystanderMoves(st: State, step: Step, st': State, u: nat) {
    && (u in st'.pcs <==> u in st.pcs)
    && (u in st.pcs ==>
          || st'.pcs[u] == st.pcs[u]
          || (step.Go? && IsAt(st', u, TryWaiter) && IsAt(st, u, WaiterAsleep) && IsAt(st, step.t, WakeWaiter(u)))
          || (step.Go? && step.t in st.pcs && st.pcs[step.t].FreeLock? && st.pcs[u].LockAsleep? && st'.pcs[u] == TryLock(st.pcs[u].goal)))
  }

  lemma FreeingWakes(st: State, u: nat)
    ensures var st' := FreeTheLock(st);
            && (u in st'.pcs <==> u in st.pcs)
            && (u in st.pcs ==> st'.pcs[u] == st.pcs[u] || (st.pcs[u].LockAsleep? && st'.pcs[u] == TryLock(st.pcs[u].goal)))
  {
  }

  lemma WakingWakes(st: State, w: nat, u: nat)
    requires w in st.waiters
    ensures var st' := WakeTheWaiter(st, w);
            && (u in st'.pcs <==> u in st.pcs)
            && (u in st.pcs ==> st'.pcs[u] == st.pcs[u] || (u == w && IsAt(st, u, WaiterAsleep) && IsAt(st', u, TryWaiter)))
  {
  }

  lemma Bystander(st: State, step: Step, u: nat)
    requires Happens(st, step) && u != step.t
    ensures BystanderMoves(st, step, Next(st, step), u)
  {
    hide FreeTheLock, WakeTheWaiter;
    FreeingWakes(st, u);
    if step.Go? && st.pcs[step.t].WakeWaiter? { WakingWakes(st, st.pcs[step.t].waiter, u); }
  }

  lemma BystanderRoles(st: State, step: Step, u: nat)
    requires Happens(st, step) && u != step.t
    ensures RoleOf(Next(st, step), u) == RoleOf(st, u)
  {
    hide Next;
    Bystander(st, step, u);
  }

  lemma OtherRoles(st: State, step: Step, u: nat)
    requires Happens(st, step) && (u != step.t || !LockStep(st, step))
    ensures RoleOf(Next(st, step), u) == RoleOf(st, u)
  {
    if u != step.t { BystanderRoles(st, step, u); }
  }

  lemma OwnRole(st: State, step: Step)
    requires Happens(st, step) && LockStep(st, step)
    ensures var st' := Next(st, step);
            match (RoleOf(st, step.t), RoleOf(st', step.t))
            case (Without, Unnamed) => st.lockValue != 0 && st'.lockValue == st.lockValue - 1 && st'.lockHolder == st.lockHolder
            case (Unnamed, Named) => st'.lockValue == st.lockValue && st'.lockHolder == Some(step.t)
            case (Named, Unnamed) => st'.lockValue == st.lockValue && st'.lockHolder == None
            case (Unnamed, Without) => st'.lockValue == st.lockValue + 1 && st'.lockHolder == st.lockHolder
            case _ => false
  {
  }

  lemma SameLock(st: State, step: Step)
    requires Happens(st, step) && !LockStep(st, step)
    ensures Next(st, step).lockHolder == st.lockHolder && Next(st, step).lockValue == st.lockValue
  {
  }

  lemma LockKept(st: State, step: Step)
    requires LockInv(st) && Happens(st, step)
    ensures LockInv(Next(st, step))
  {
    hide RoleOf, Next, LockStep;
    forall u: nat | u != step.t || !LockStep(st, step)
      ensures RoleOf(Next(st, step), u) == RoleOf(st, u)
    {
      OtherRoles(st, step, u);
    }
    if LockStep(st, step) { OwnRole(st, step); } else { SameLock(st, step); }
  }

  ghost predicate LockQueueStep(st: State, step: Step) {
    step.Go? && step.t in st.pcs && ((st.pcs[step.t].TryLock? && st.lockValue == 0) || st.pcs[step.t].FreeLock?)
  }

  lemma SleepersSame(st: State, step: Step, u: nat)
    requires Happens(st, step) && !LockQueueStep(st, step)
    ensures IsLockAsleep(Next(st, step), u) == IsLockAsleep(st, u) && Next(st, step).lockQueue == st.lockQueue
  {
    if u != step.t {
      Bystander(st, step, u);
    }
  }

  lemma NoDupEnds(s: seq<nat>, x: nat)
    requires NoDup(s)
    ensures x !in s ==> NoDup(s + [x])
    ensures s != [] ==> NoDup(s[1..]) && s[0] !in s[1..] && s == [s[0]] + s[1..]
  {
  }

  lemma LockSleeps(st: State, t: nat)
    requires LockQueueInv(st) && Happens(st, Go(t)) && st.pcs[t].TryLock? && st.lockValue == 0
    ensures LockQueueInv(Advance(st, t))
  {
    hide NoDup;
    NoDupEnds(st.lockQueue, t);
    assert forall u :: IsLockAsleep(Advance(st, t), u) <==> IsLockAsleep(st, u) || u == t;
    assert t !in st.lockQueue;
  }

  lemma OneSleeperWakes(st: State, t: nat, u: nat)
    requires Happens(st, Go(t)) && st.pcs[t].FreeLock? && (st.lockQueue != [] ==> IsLockAsleep(st, st.lockQueue[0]))
    ensures IsLockAsleep(Advance(st, t), u) <==> IsLockAsleep(st, u) && !(st.lockQueue != [] && u == st.lockQueue[0])
    ensures Advance(st, t).lockQueue == if st.lockQueue == [] then [] else st.lockQueue[1..]
  {
  }

  lemma LockWakes(st: State, t: nat)
    requires LockQueueInv(st) && Happens(st, Go(t)) && st.pcs[t].FreeLock?
    ensures LockQueueInv(Advance(st, t))
  {
    hide NoDup, IsLockAsleep, Advance;
    NoDupEnds(st.lockQueue, t);
    if st.lockQueue != [] { assert IsLockAsleep(st, st.lockQueue[0]); }
    forall u ensures IsLockAsleep(Advance(st, t), u) <==> IsLockAsleep(st, u) && !(st.lockQueue != [] && u == st.lockQueue[0]) {
      OneSleeperWakes(st, t, u);
    }
    OneSleeperWakes(st, t, t);
  }

  lemma LockQueueKept(st: State, step: Step)
    requires LockQueueInv(st) && Happens(st, step)
    ensures LockQueueInv(Next(st, step))
  {
    if !LockQueueStep(st, step) {
      forall u ensures IsLockAsleep(Next(st, step), u) == IsLockAsleep(st, u) { SleepersSame(st, step, u); }
      SleepersSame(st, step, step.t);
    } else {
      hide LockQueueInv;
      if st.pcs[step.t].TryLock? { LockSleeps(st, step.t); } else { LockWakes(st, step.t); }
    }
  }

  /** The steps after which the lock is free: it has just been, or was and somebody else moved. */
  lemma StaysFree(st: State, step: Step, w: nat)
    requires LockInv(st) && Happens(st, step) && IsTrying(st, w)
    ensures Next(st, step).lockValue == 0 || IsTrying(Next(st, step), w)
  {
    assert step.Go? && step.t == w && st.lockValue != 0 ==> st.lockValue == 1;
  }

  lemma FreedOrSame(st: State, step: Step)
    requires LockInv(st) && Happens(st, step) && Next(st, step).lockValue > 0 && Next(st, step).lockQueue != []
    ensures (step.Go? && st.pcs[step.t].FreeLock? && st.lockQueue != []) || (st.lockValue > 0 && st.lockQueue == Next(st, step).lockQueue)
  {
    assert step.Go? && Holding(st.pcs[step.t]) ==> !RoleOf(st, step.t).Without?;
  }

  lemma LockWakeKept(st: State, step: Step)
    requires LockInv(st) && LockQueueInv(st) && LockWakeInv(st) && Happens(st, step)
    ensures LockWakeInv(Next(st, step))
  {
    var st' := Next(st, step);
    if st'.lockValue > 0 && st'.lockQueue != [] {
      FreedOrSame(st, step);
      if st.lockValue > 0 && st.lockQueue == st'.lockQueue {
        var w :| IsTrying(st, w);
        StaysFree(st, step, w);
      } else {
        assert IsLockAsleep(st, st.lockQueue[0]);
        assert IsTrying(st', st.lockQueue[0]);
      }
    }
  }

  // The waiters.

  ghost predicate WaitStep(st: State, step: Step) {
    step.Go? && step.t in st.pcs &&
    match st.pcs[step.t]
    case Signal => st.waitQueue != []
    case WakeWaiter(_) | Enqueue | TryWaiter => true
    case _ => false
  }

  lemma WakersSame(st: State, step: Step, u: nat, w: nat)
    requires Happens(st, step) && !WaitStep(st, step)
    ensures Wakes(Next(st, step), u, w) == Wakes(st, u, w)
  {
    if u != step.t {
      hide Next;
      Bystander(st, step, u);
    }
  }

  lemma WaitersSame(st: State, step: Step, u: nat)
    requires Happens(st, step) && !WaitStep(st, step)
    ensures IsWaiting(Next(st, step), u) == IsWaiting(st, u) && IsAsleep(Next(st, step), u) == IsAsleep(st, u)
  {
    if u != step.t {
      hide Next;
      Bystander(st, step, u);
    }
  }

  lemma SemaphoresSame(st: State, step: Step, u: nat)
    requires Happens(st, step) && !WaitStep(st, step)
    ensures IsWaiting(st, u) && u in st.waiters ==> u in Next(st, step).waiters && Next(st, step).waiters[u] == st.waiters[u]
    ensures Next(st, step).waitQueue == st.waitQueue
  {
  }

  lemma WaitFrame(st: State, st': State)
    requires WaitInv(st) && st'.waitQueue == st.waitQueue
    requires forall u :: IsWaiting(st', u) == IsWaiting(st, u) && IsAsleep(st', u) == IsAsleep(st, u)
    requires forall u, w :: Wakes(st', u, w) == Wakes(st, u, w)
    requires forall u :: IsWaiting(st, u) && u in st.waiters ==> u in st'.waiters && st'.waiters[u] == st.waiters[u]
    ensures WaitInv(st')
  {
    hide IsWaiting, IsAsleep, Wakes, NoDup;
    forall w ensures BeingWoken(st', w) == BeingWoken(st, w) {
      if BeingWoken(st, w) {
        var t :| Wakes(st, t, w);
        assert Wakes(st', t, w);
      }
    }
  }

  lemma SignalWaits(st: State, t: nat)
    requires WaitInv(st) && Happens(st, Go(t)) && st.pcs[t].Signal? && st.waitQueue != []
    ensures WaitInv(Advance(st, t))
  {
    var st', first := Advance(st, t), st.waitQueue[0];
    NoDupEnds(st.waitQueue, t);
    hide NoDup;
    assert forall u :: IsWaiting(st', u) == IsWaiting(st, u) && IsAsleep(st', u) == IsAsleep(st, u);
    assert forall u, w :: Wakes(st', u, w) <==> Wakes(st, u, w) || (u == t && w == first);
    hide IsWaiting, IsAsleep, Wakes;
    forall w ensures BeingWoken(st', w) <==> BeingWoken(st, w) || w == first {
      if BeingWoken(st, w) {
        var u :| Wakes(st, u, w);
        assert Wakes(st', u, w);
      }
      assert w == first ==> Wakes(st', t, first);
    }
  }

  /** One Signal at a time. */
  lemma OneWaker(st: State, t: nat, w: nat, u: nat, v: nat)
    requires LockInv(st) && Wakes(st, t, w) && Wakes(st, u, v)
    ensures t == u && w == v
  {
    assert RoleOf(st, t) == RoleOf(st, u) == Named;
  }

  lemma WakeChanges(st: State, t: nat)
    requires Happens(st, Go(t)) && st.pcs[t].WakeWaiter?
    ensures var st', first := Advance(st, t), st.pcs[t].waiter;
            && (forall u, w :: Wakes(st', u, w) ==> Wakes(st, u, w) && u != t)
            && (forall u :: IsWaiting(st', u) == IsWaiting(st, u) && (IsAsleep(st', u) <==> IsAsleep(st, u) && u != first))
  {
  }

  lemma WakeWaits(st: State, t: nat)
    requires WaitInv(st) && LockInv(st) && Happens(st, Go(t)) && st.pcs[t].WakeWaiter?
    ensures WaitInv(Advance(st, t))
  {
    hide NoDup, LockInv;
    var st', first := Advance(st, t), st.pcs[t].waiter;
    assert Wakes(st, t, first);
    WakeChanges(st, t);
    hide IsWaiting, IsAsleep, Wakes;
    forall u, w | Wakes(st, u, w) ensures u == t && w == first { OneWaker(st, u, w, t, first); }
    assert forall w :: BeingWoken(st, w) <==> w == first;
    assert forall w :: !BeingWoken(st', w);
    hide BeingWoken;
  }

  lemma EnqueueWaits(st: State, t: nat)
    requires WaitInv(st) && Happens(st, Go(t)) && st.pcs[t].Enqueue?
    ensures WaitInv(Advance(st, t))
  {
    var st' := Advance(st, t);
    assert !IsWaiting(st, t);
    NoDupEnds(st.waitQueue, t);
    hide NoDup;
    assert forall u :: (IsWaiting(st', u) <==> IsWaiting(st, u) || u == t) && IsAsleep(st', u) == IsAsleep(st, u);
    assert forall u, w :: Wakes(st', u, w) == Wakes(st, u, w);
    hide IsWaiting, IsAsleep, Wakes;
    forall w ensures BeingWoken(st', w) == BeingWoken(st, w) {
      if BeingWoken(st, w) {
        var u :| Wakes(st, u, w);
        assert Wakes(st', u, w);
      }
    }
  }

  lemma PassWaits(st: State, t: nat)
    requires WaitInv(st) && Happens(st, Go(t)) && st.pcs[t].TryWaiter?
    ensures WaitInv(Advance(st, t))
  {
    var st' := Advance(st, t);
    assert IsWaiting(st, t);
    hide NoDup;
    assert forall u :: u != t ==> IsWaiting(st', u) == IsWaiting(st, u) && IsAsleep(st', u) == IsAsleep(st, u);
    assert forall u, w :: Wakes(st', u, w) == Wakes(st, u, w);
    assert IsWaiting(st', t) <==> st.waiters[t] == 0;
    hide IsWaiting, IsAsleep, Wakes;
    forall w ensures BeingWoken(st', w) == BeingWoken(st, w) {
      if BeingWoken(st, w) {
        var u :| Wakes(st, u, w);
        assert Wakes(st', u, w);
      }
    }
  }

  lemma WaitKept(st: State, step: Step)
    requires WaitInv(st) && LockInv(st) && Happens(st, step)
    ensures WaitInv(Next(st, step))
  {
    if WaitStep(st, step) {
      hide WaitInv, LockInv;
      if st.pcs[step.t].Signal? { SignalWaits(st, step.t); }
      else if st.pcs[step.t].WakeWaiter? { WakeWaits(st, step.t); }
      else if st.pcs[step.t].Enqueue? { EnqueueWaits(st, step.t); }
      else { PassWaits(st, step.t); }
    } else {
      hide WaitInv, LockInv, Next, IsWaiting, IsAsleep, Wakes;
      var st' := Next(st, step);
      forall u, w ensures Wakes(st', u, w) == Wakes(st, u, w) { WakersSame(st, step, u, w); }
      forall u
        ensures IsWaiting(st', u) == IsWaiting(st, u) && IsAsleep(st', u) == IsAsleep(st, u)
        ensures IsWaiting(st, u) && u in st.waiters ==> u in st'.waiters && st'.waiters[u] == st.waiters[u]
      {
        WaitersSame(st, step, u);
        SemaphoresSame(st, step, u);
      }
      SemaphoresSame(st, step, 0);
      WaitFrame(st, st');
    }
  }

  // The list.

  ghost predicate ListStep(st: State, step: Step) {
    step.Go? && step.t in st.pcs && (st.pcs[step.t].AppendItem? || st.pcs[step.t].TestEmpty? || st.pcs[step.t].TakeItem?)
  }

  /** Where the other threads are does not change, except that sleepers wake. */
  lemma OthersStay(st: State, step: Step, u: nat, pc: Pc)
    requires Happens(st, step) && u != step.t && (pc == TakeItem || pc == Enqueue || pc == Signal)
    ensures IsAt(Next(st, step), u, pc) == IsAt(st, u, pc)
  {
    hide Next;
    Bystander(st, step, u);
  }

  lemma SameList(st: State, step: Step)
    requires Happens(st, step) && !ListStep(st, step)
    ensures Next(st, step).list == st.list && Next(st, step).appended == st.appended && Next(st, step).removed == st.removed
    ensures !IsAt(Next(st, step), step.t, TakeItem) && !IsAt(Next(st, step), step.t, Enqueue)
  {
  }

  /** Only the thread that has the lock touches the list, or relies on it. */
  lemma AloneAtList(st: State, step: Step, u: nat)
    requires LockInv(st) && Happens(st, step) && ListStep(st, step) && u != step.t
    ensures !IsAt(st, u, TakeItem) && !IsAt(st, u, Enqueue) && !IsAt(st, u, Signal)
  {
    assert RoleOf(st, step.t) == Named;
    assert IsAt(st, u, TakeItem) || IsAt(st, u, Enqueue) || IsAt(st, u, Signal) ==> RoleOf(st, u) == Named;
  }

  lemma ListKept(st: State, step: Step)
    requires ListInv(st) && LockInv(st) && Happens(st, step)
    ensures ListInv(Next(st, step))
  {
    hide LockInv;
    var st' := Next(st, step);
    forall u | u != step.t
      ensures IsAt(st', u, TakeItem) == IsAt(st, u, TakeItem) && IsAt(st', u, Enqueue) == IsAt(st, u, Enqueue)
      ensures ListStep(st, step) ==> !IsAt(st, u, TakeItem) && !IsAt(st, u, Enqueue)
    {
      OthersStay(st, step, u, TakeItem);
      OthersStay(st, step, u, Enqueue);
      if ListStep(st, step) { AloneAtList(st, step, u); }
    }
    if ListStep(st, step) { OwnList(st, step); } else { SameList(st, step); }
    hide Next, ListStep;
  }

  lemma OwnList(st: State, step: Step)
    requires ListInv(st) && Happens(st, step) && ListStep(st, step)
    ensures var st' := Next(st, step);
            && st'.appended == st'.removed + st'.list
            && (IsAt(st', step.t, TakeItem) ==> st'.list != []) && (IsAt(st', step.t, Enqueue) ==> st'.list == [])
  {
    if st.pcs[step.t].AppendItem? {
      assert st.removed + st.list + [st.pcs[step.t].item] == st.removed + (st.list + [st.pcs[step.t].item]);
    } else if st.pcs[step.t].TakeItem? {
      assert st.list == [st.list[0]] + st.list[1..];
      assert st.removed + st.list == st.removed + [st.list[0]] + st.list[1..];
    }
  }

  ghost predicate Takes(st: State, step: Step) { step.Go? && IsAt(st, step.t, TakeItem) }

  /** The call returns the item. */
  ghost predicate Returns(st: State, step: Step, item: Item) { step.Go? && IsAt(st, step.t, FreeLock(RemoveDone(item))) }

  ghost predicate ReturnsItem(st: State, step: Step) {
    step.Go? && step.t in st.pcs && st.pcs[step.t].FreeLock? && st.pcs[step.t].after.RemoveDone?
  }

  lemma OthersTaken(st: State, step: Step, u: nat, item: Item)
    requires Happens(st, step) && u != step.t
    ensures HasTaken(Next(st, step), u, item) == HasTaken(st, u, item)
  {
    hide Next;
    Bystander(st, step, u);
  }

  lemma OwnTaken(st: State, step: Step, item: Item)
    requires Happens(st, step)
    ensures HasTaken(Next(st, step), step.t, item)
            <==> (Takes(st, step) && item == st.list[0]) || (HasTaken(st, step.t, item) && !Returns(st, step, item))
    ensures Next(st, step).removed == if Takes(st, step) then st.removed + [st.list[0]] else st.removed
  {
  }

  /** Whoever has taken an item is the only one to hold the lock. */
  lemma TakenAlone(st: State, t: nat, item: Item, u: nat)
    requires LockInv(st) && HasTaken(st, t, item) && !RoleOf(st, u).Without?
    ensures t == u
  {
    assert !RoleOf(st, t).Without?;
  }

  lemma TakenKept(st: State, step: Step)
    requires LockInv(st) && TakenInv(st) && Happens(st, step)
    ensures TakenInv(Next(st, step))
  {
    hide Next, LockInv;
    forall t, item | HasTaken(Next(st, step), t, item)
      ensures var removed := Next(st, step).removed; removed != [] && removed[|removed| - 1] == item
    {
      OwnTaken(st, step, item);
      if t != step.t {
        OthersTaken(st, step, t, item);
        if Takes(st, step) {
          assert !RoleOf(st, step.t).Without?;
          TakenAlone(st, t, item, step.t);
        }
      }
    }
  }

  // The signals.

  /** Everywhere but at the list, those coming stay coming. */
  lemma OthersStayComing(st: State, step: Step, u: nat)
    requires Happens(st, step) && IsComing(st, u) && u != step.t
    ensures IsComing(Next(st, step), u)
  {
    if step.Go? && st.pcs[step.t].Signal? && st.waitQueue != [] { assert st.waitQueue == [st.waitQueue[0]] + st.waitQueue[1..]; }
  }

  lemma ComingStays(st: State, step: Step, u: nat)
    requires WaitInv(st) && Happens(st, step) && IsComing(st, u)
    requires u == step.t ==> !st.pcs[u].TestEmpty? && !st.pcs[u].TakeItem?
    ensures IsComing(Next(st, step), u)
  {
    hide NoDup;
    if u != step.t {
      OthersStayComing(st, step, u);
    } else {
      assert st.pcs[u].TryWaiter? ==> IsWaiting(st, u);
    }
  }

  lemma {:induction false} SubsetSize(a: set<nat>, b: set<nat>)
    requires a <= b
    ensures |a| <= |b|
  {
    if x :| x in a {
      SubsetSize(a - {x}, b - {x});
    }
  }

  lemma ComingGrows(st: State, step: Step)
    requires WaitInv(st) && Happens(st, step)
    ensures |Coming(st) - {step.t}| <= |Coming(Next(st, step)) - {step.t}|
    ensures IsComing(st, step.t) && !(step.Go? && (st.pcs[step.t].TestEmpty? || st.pcs[step.t].TakeItem?)) ==> IsComing(Next(st, step), step.t)
  {
    hide WaitInv, Next, IsComing;
    forall u | IsComing(st, u) && u != step.t ensures IsComing(Next(st, step), u) { ComingStays(st, step, u); }
    ComingIn(st);
    ComingIn(Next(st, step));
    SubsetSize(Coming(st) - {step.t}, Coming(Next(st, step)) - {step.t});
    if IsComing(st, step.t) && !(step.Go? && (st.pcs[step.t].TestEmpty? || st.pcs[step.t].TakeItem?)) {
      ComingStays(st, step, step.t);
    }
  }

  lemma ComingIn(st: State)
    ensures forall u :: u in Coming(st) <==> IsComing(st, u)
  {
  }

  lemma SizeWithout(a: set<nat>, x: nat)
    ensures |a| == |a - {x}| + if x in a then 1 else 0
  {
    if x in a { assert a == a - {x} + {x}; }
  }

  /** How the number coming changes. */
  lemma ComingCount(st: State, step: Step)
    requires WaitInv(st) && Happens(st, step)
    ensures |Coming(Next(st, step))| >= |Coming(st)| - (if IsComing(st, step.t) then 1 else 0) + (if IsComing(Next(st, step), step.t) then 1 else 0)
  {
    hide WaitInv, Next, IsComing;
    ComingGrows(st, step);
    ComingIn(st);
    ComingIn(Next(st, step));
    SizeWithout(Coming(st), step.t);
    SizeWithout(Coming(Next(st, step)), step.t);
  }

  lemma SignallingStays(st: State, step: Step)
    requires Happens(st, step) && Signalling(st) && !IsAt(st, step.t, Signal)
    ensures Signalling(Next(st, step))
  {
    var u :| IsAt(st, u, Signal);
    OthersStay(st, step, u, Signal);
  }

  lemma SignalAddsOne(st: State, t: nat)
    requires WaitInv(st) && Happens(st, Go(t)) && st.pcs[t].Signal? && st.waitQueue != []
    ensures |Coming(Next(st, Go(t)))| >= |Coming(st)| + 1
  {
    var st', first := Next(st, Go(t)), st.waitQueue[0];
    NoDupEnds(st.waitQueue, t);
    assert IsWaiting(st, first) && !IsComing(st, first) && IsComing(st', first) && !IsComing(st, t);
    forall u | IsComing(st, u) ensures IsComing(st', u) { ComingStays(st, Go(t), u); }
    hide IsComing, Next, WaitInv;
    SubsetSize(Coming(st) + {first}, Coming(st'));
  }

  /** The steps other than those at the list and the wait queue change nothing that matters. */
  lemma QuietStep(st: State, step: Step)
    requires Happens(st, step) && !ListStep(st, step)
    requires step.Go? ==> !st.pcs[step.t].Signal? && !st.pcs[step.t].Enqueue?
    ensures Next(st, step).waitQueue == st.waitQueue && !IsAt(st, step.t, Signal)
    ensures !IsAt(st, step.t, TestEmpty) && !IsAt(st, step.t, TakeItem)
  {
  }

  lemma ListStepEffect(st: State, t: nat)
    requires Happens(st, Go(t)) && ListStep(st, Go(t))
    ensures var st' := Next(st, Go(t));
            && st'.waitQueue == st.waitQueue
            && match st.pcs[t]
               case AppendItem(item) => |st'.list| == |st.list| + 1 && !IsComing(st, t) && IsAt(st', t, Signal)
               case TestEmpty => st'.list == st.list && (st.list != [] ==> IsComing(st', t))
               case _ => |st'.list| == |st.list| - 1
  {
  }

  lemma ListStepSignals(st: State, t: nat)
    requires Inv(st) && Happens(st, Go(t)) && ListStep(st, Go(t))
    ensures SignalInv(Next(st, Go(t)))
  {
    var st' := Next(st, Go(t));
    ListStepEffect(st, t);
    ComingCount(st, Go(t));
    if st.pcs[t].AppendItem? {
      forall u ensures !IsAt(st, u, Signal) { if u != t { AloneAtList(st, Go(t), u); } }
      assert Signalling(st');
    } else if Signalling(st) {
      SignallingStays(st, Go(t));
    }
    hide Next, Inv, LockInv, WaitInv, ListInv, LockQueueInv, LockWakeInv, TakenInv, IsComing;
  }

  lemma SignalKept(st: State, step: Step)
    requires Inv(st) && Happens(st, step)
    ensures SignalInv(Next(st, step))
  {
    hide LockInv, WaitInv, LockQueueInv, LockWakeInv, TakenInv, IsComing;
    if ListStep(st, step) {
      ListStepSignals(st, step.t);
    } else {
      SameList(st, step);
      if step.Go? && st.pcs[step.t].Enqueue? {
        assert IsAt(st, step.t, Enqueue);
      } else if step.Go? && st.pcs[step.t].Signal? {
        if st.waitQueue != [] { SignalAddsOne(st, step.t); }
      } else {
        hide Next;
        QuietStep(st, step);
        ComingGrows(st, step);
        ComingCount(st, step);
        if Signalling(st) { SignallingStays(st, step); }
      }
    }
  }

  /** Every step keeps the invariant. */
  lemma NextKeepsInv(st: State, step: Step)
    requires Inv(st) && Enabled(st, step)
    ensures Asserted(st, step) && Inv(Next(st, step))
  {
    hide LockInv, LockQueueInv, LockWakeInv, WaitInv, ListInv, TakenInv, SignalInv;
    InvAsserts(st, step);
    TakenKept(st, step);
    LockKept(st, step);
    LockWakeKept(st, step);
    LockQueueKept(st, step);
    WaitKept(st, step);
    ListKept(st, step);
    SignalKept(st, step);
  }

  // Whole runs.

  ghost predicate Initial(st: State) {
    st == State(map[], 1, [], None, [], map[], [], [], [])
  }

  ghost predicate IsRun(states: seq<State>, steps: seq<Step>) {
    && |states| == |steps| + 1 && Initial(states[0])
    && forall i :: 0 <= i < |steps| ==> Becomes(states[i], steps[i], states[i + 1])
  }

  lemma {:induction false} RunsKeepInv(states: seq<State>, steps: seq<Step>, n: nat)
    requires IsRun(states, steps) && n <= |steps|
    ensures Inv(states[n])
  {
    if n > 0 {
      RunsKeepInv(states, steps, n - 1);
      assert Becomes(states[n - 1], steps[n - 1], states[n]);
      NextKeepsInv(states[n - 1], steps[n - 1]);
    }
  }

  /** In every interleaving: elements leave in the order in which they came, each once; a step that can
      be taken meets its assertions, so the lock is held where it must be and no element is taken from
      an empty list; at most one thread is between P and V of the lock; and no thread is left asleep
      on a free lock. */
  lemma ExactlyOnceFifo(states: seq<State>, steps: seq<Step>, n: nat, next: Step, t: nat, u: nat)
    requires IsRun(states, steps) && n <= |steps|
    ensures states[n].appended == states[n].removed + states[n].list
    ensures Enabled(states[n], next) ==> Asserted(states[n], next)
    ensures !RoleOf(states[n], t).Without? && !RoleOf(states[n], u).Without? ==> t == u
    ensures states[n].lockQueue != [] && states[n].lockValue > 0 ==> exists w :: IsTrying(states[n], w)
  {
    RunsKeepInv(states, steps, n);
    if Enabled(states[n], next) { InvAsserts(states[n], next); }
  }

  /** How many calls of RemoveFront have returned. */
  ghost function ReturnCount(states: seq<State>, steps: seq<Step>, n: nat): nat
    requires IsRun(states, steps) && n <= |steps|
  {
    if n == 0 then 0
    else ReturnCount(states, steps, n - 1) + if ReturnsItem(states[n - 1], steps[n - 1]) then 1 else 0
  }

  ghost predicate SomeoneHasTaken(st: State) { exists t, item :: HasTaken(st, t, item) }

  /** Taking makes someone the taker, returning makes it nobody, and nothing else changes it. */
  lemma TakerStep(st: State, step: Step)
    requires LockInv(st) && Happens(st, step)
    ensures Takes(st, step) ==> !SomeoneHasTaken(st) && SomeoneHasTaken(Next(st, step)) && !ReturnsItem(st, step)
    ensures ReturnsItem(st, step) ==> SomeoneHasTaken(st) && !SomeoneHasTaken(Next(st, step))
    ensures !Takes(st, step) && !ReturnsItem(st, step) ==> (SomeoneHasTaken(Next(st, step)) <==> SomeoneHasTaken(st))
  {
    hide Next, LockInv;
    var st' := Next(st, step);
    forall t, item ensures HasTaken(st', t, item) <==>
        if t == step.t then (Takes(st, step) && item == st.list[0]) || (HasTaken(st, t, item) && !Returns(st, step, item)) else HasTaken(st, t, item)
    {
      if t == step.t { OwnTaken(st, step, item); } else { OthersTaken(st, step, t, item); }
    }
    forall t, item | HasTaken(st, t, item) && (Takes(st, step) || ReturnsItem(st, step)) ensures t == step.t {
      assert !RoleOf(st, step.t).Without?;
      TakenAlone(st, t, item, step.t);
    }
    if Takes(st, step) { assert HasTaken(st', step.t, st.list[0]); }
    if ReturnsItem(st, step) { assert HasTaken(st, step.t, st.pcs[step.t].after.item); }
  }

  lemma {:induction false} ReturnsCounted(states: seq<State>, steps: seq<Step>, n: nat)
    requires IsRun(states, steps) && n <= |steps|
    ensures |states[n].removed| == ReturnCount(states, steps, n) + if SomeoneHasTaken(states[n]) then 1 else 0
  {
    hide Next, Inv, LockInv, Takes, ReturnsItem, SomeoneHasTaken;
    if n == 0 {
      assert !SomeoneHasTaken(states[0]) by { NobodyAtFirst(states[0]); }
    } else {
      ReturnsCounted(states, steps, n - 1);
      RunsKeepInv(states, steps, n - 1);
      assert Becomes(states[n - 1], steps[n - 1], states[n]);
      assert LockInv(states[n - 1]) by { InvLock(states[n - 1]); }
      TakerStep(states[n - 1], steps[n - 1]);
      OwnTaken(states[n - 1], steps[n - 1], 0);
    }
  }

  lemma NobodyAtFirst(st: State)
    requires Initial(st)
    ensures !SomeoneHasTaken(st)
  {
  }

  lemma InvLock(st: State)
    requires Inv(st)
    ensures LockInv(st) && TakenInv(st) && ListInv(st)
  {
    hide LockInv, TakenInv, ListInv;
  }

  // The queues are first in, first out.

  /** A thread that finds the lock taken goes to the end of its queue; freeing the lock wakes the first. */
  lemma LockQueueFifo(st: State, step: Step)
    requires LockQueueInv(st) && Happens(st, step)
    ensures var st' := Next(st, step);
            if step.Go? && st.pcs[step.t].TryLock? && st.lockValue == 0 then
              st'.lockQueue == st.lockQueue + [step.t] && IsLockAsleep(st', step.t)
            else if step.Go? && st.pcs[step.t].FreeLock? && st.lockQueue != [] then
              st'.lockQueue == st.lockQueue[1..] && IsTrying(st', st.lockQueue[0])
            else st'.lockQueue == st.lockQueue
  {
    hide NoDup;
    if st.lockQueue != [] { assert IsLockAsleep(st, st.lockQueue[0]); }
  }

  /** A thread that waits for an element goes to the end of the wait queue; a signal is for the first. */
  lemma WaitQueueFifo(st: State, step: Step)
    requires Happens(st, step)
    ensures var st' := Next(st, step);
            if step.Go? && st.pcs[step.t].Enqueue? then st'.waitQueue == st.waitQueue + [step.t]
            else if step.Go? && st.pcs[step.t].Signal? && st.waitQueue != [] then
              st'.waitQueue == st.waitQueue[1..] && IsAt(st', step.t, WakeWaiter(st.waitQueue[0]))
            else st'.waitQueue == st.waitQueue
  {
  }

  // What the calls are about, read off the steps.

  datatype Call = AppendCall(item: Item) | RemoveCall

  /** The thread's latest call. */
  ghost function CallOf(steps: seq<Step>, n: nat, t: nat): Option<Call>
    requires n <= |steps|
  {
    if n == 0 then None
    else if steps[n - 1].StartAppend? && steps[n - 1].t == t then Some(AppendCall(steps[n - 1].item))
    else if steps[n - 1].StartRemove? && steps[n - 1].t == t then Some(RemoveCall)
    else CallOf(steps, n - 1, t)
  }

  /** How often the thread has changed the list since that call began. */
  ghost function Changes(states: seq<State>, steps: seq<Step>, n: nat, t: nat): nat
    requires IsRun(states, steps) && n <= |steps|
  {
    if n == 0 || (!steps[n - 1].Go? && steps[n - 1].t == t) then 0
    else Changes(states, steps, n - 1, t) + if steps[n - 1].t == t && states[n].list != states[n - 1].list then 1 else 0
  }

  /** Where in its call the thread is, with the list changed so and so often. */
  ghost predicate InCall(pc: Pc, call: Call, changes: nat) {
    match pc
    case TryLock(goal) => changes == 0 && call == CallFor(goal)
    case LockAsleep(goal) => changes == 0 && call == CallFor(goal)
    case GotLock(goal) => changes == 0 && call == CallFor(goal)
    case AppendItem(item) => changes == 0 && call == AppendCall(item)
    case Signal | WakeWaiter(_) => changes == 1 && call.AppendCall?
    case Unlock(after) => InEnd(after, call, changes)
    case FreeLock(after) => InEnd(after, call, changes)
    case _ => changes == 0 && call == RemoveCall
  }

  ghost predicate InEnd(after: After, call: Call, changes: nat) {
    match after
    case AppendDone => changes == 1 && call.AppendCall?
    case RemoveDone(_) => changes == 1 && call == RemoveCall
    case ThenWait => changes == 0 && call == RemoveCall
  }

  function CallFor(goal: Goal): Call {
    if goal.ToAppend? then AppendCall(goal.item) else RemoveCall
  }

  lemma StartInCall(st: State, step: Step)
    requires Happens(st, step) && !step.Go?
    ensures step.t in Next(st, step).pcs
    ensures InCall(Next(st, step).pcs[step.t], if step.StartAppend? then AppendCall(step.item) else RemoveCall, 0)
    ensures Next(st, step).list == st.list
  {
  }

  lemma GoInCall(st: State, t: nat, call: Call, changes: nat)
    requires Happens(st, Go(t)) && InCall(st.pcs[t], call, changes)
    ensures var st' := Next(st, Go(t));
            t in st'.pcs ==> InCall(st'.pcs[t], call, changes + if st'.list != st.list then 1 else 0)
  {
    var st' := Next(st, Go(t));
    if IsAt(st, t, TakeItem) || st.pcs[t].AppendItem? { assert |st'.list| != |st.list|; }
    else { assert st'.list == st.list; }
  }

  lemma WakeInCall(st: State, step: Step, u: nat, call: Call, changes: nat)
    requires Happens(st, step) && u != step.t && u in Next(st, step).pcs
    ensures u in st.pcs && (InCall(st.pcs[u], call, changes) ==> InCall(Next(st, step).pcs[u], call, changes))
  {
    hide Next;
    Bystander(st, step, u);
  }

  lemma {:induction false} RunsInCall(states: seq<State>, steps: seq<Step>, n: nat, t: nat)
    requires IsRun(states, steps) && n <= |steps| && t in states[n].pcs
    ensures CallOf(steps, n, t).Some? && InCall(states[n].pcs[t], CallOf(steps, n, t).value, Changes(states, steps, n, t))
  {
    hide Next, InCall;
    if n > 0 {
      var st, step := states[n - 1], steps[n - 1];
      assert Becomes(st, step, states[n]);
      if t != step.t {
        WakeInCall(st, step, t, RemoveCall, 0);
        RunsInCall(states, steps, n - 1, t);
        WakeInCall(st, step, t, CallOf(steps, n - 1, t).value, Changes(states, steps, n - 1, t));
      } else if step.Go? {
        RunsInCall(states, steps, n - 1, t);
        GoInCall(st, t, CallOf(steps, n - 1, t).value, Changes(states, steps, n - 1, t));
      } else {
        StartInCall(st, step);
      }
    }
  }

  lemma LastInCall(st: State, t: nat, call: Call, changes: nat)
    requires Happens(st, Go(t)) && t !in Next(st, Go(t)).pcs && InCall(st.pcs[t], call, changes)
    ensures changes == 1 && (call == RemoveCall <==> ReturnsItem(st, Go(t)))
  {
    assert st.pcs[t].FreeLock? && !st.pcs[t].after.ThenWait?;
  }

  /** In every interleaving a call that returns has changed the list exactly once. */
  lemma EachCallOnce(states: seq<State>, steps: seq<Step>, n: nat, t: nat)
    requires IsRun(states, steps) && n < |steps| && steps[n] == Go(t) && t !in states[n + 1].pcs
    ensures CallOf(steps, n, t).Some? && Changes(states, steps, n, t) == 1
    ensures CallOf(steps, n, t).value == RemoveCall <==> ReturnsItem(states[n], steps[n])
  {
    hide Next, InCall;
    assert Becomes(states[n], steps[n], states[n + 1]);
    RunsInCall(states, steps, n, t);
    LastInCall(states[n], t, CallOf(steps, n, t).value, Changes(states, steps, n, t));
  }

  lemma ChangeIs(st: State, t: nat, call: Call, changes: nat)
    requires Happens(st, Go(t)) && InCall(st.pcs[t], call, changes)
    ensures var st' := Next(st, Go(t));
            match call
            case AppendCall(item) =>
              || (st'.list == st.list && st'.appended == st.appended)
              || (st'.list == st.list + [item] && st'.appended == st.appended + [item])
            case RemoveCall =>
              && st'.appended == st.appended
              && (st'.list == st.list || exists item :: st.list == [item] + st'.list && HasTaken(st', t, item))
  {
    if IsAt(st, t, TakeItem) {
      assert st.list == [st.list[0]] + Next(st, Go(t)).list;
      assert HasTaken(Next(st, Go(t)), t, st.list[0]);
    }
  }

  /** Append(item) puts item at the end of the list, and RemoveFront takes the first element, which it
      then has to return; nothing else changes the list. */
  lemma ChangesAreCalls(states: seq<State>, steps: seq<Step>, n: nat)
    requires IsRun(states, steps) && n < |steps| && states[n + 1].list != states[n].list
    ensures CallOf(steps, n, steps[n].t).Some?
    ensures match CallOf(steps, n, steps[n].t).value
            case AppendCall(item) => states[n + 1].list == states[n].list + [item]
            case RemoveCall => exists item :: states[n].list == [item] + states[n + 1].list && HasTaken(states[n + 1], steps[n].t, item)
  {
    hide Next, InCall;
    assert Becomes(states[n], steps[n], states[n + 1]);
    if !steps[n].Go? { StartInCall(states[n], steps[n]); }
    var t := steps[n].t;
    RunsInCall(states, steps, n, t);
    ChangeIs(states[n], t, CallOf(steps, n, t).value, Changes(states, steps, n, t));
  }

  /** The items of the Append calls, in the order in which they have got to the list. */
  ghost function AppendedItems(states: seq<State>, steps: seq<Step>, n: nat): seq<Item>
    requires IsRun(states, steps) && n <= |steps|
  {
    if n == 0 then []
    else
      var call := CallOf(steps, n - 1, steps[n - 1].t);
      AppendedItems(states, steps, n - 1) +
      if states[n].list != states[n - 1].list && call.Some? && call.value.AppendCall? then [call.value.item] else []
  }

  lemma {:induction false} AppendedByCalls(states: seq<State>, steps: seq<Step>, n: nat)
    requires IsRun(states, steps) && n <= |steps|
    ensures states[n].appended == AppendedItems(states, steps, n)
  {
    hide Next, InCall;
    if n > 0 {
      AppendedByCalls(states, steps, n - 1);
      assert Becomes(states[n - 1], steps[n - 1], states[n]);
      var t := steps[n - 1].t;
      if steps[n - 1].Go? {
        RunsInCall(states, steps, n - 1, t);
        ChangeIs(states[n - 1], t, CallOf(steps, n - 1, t).value, Changes(states, steps, n - 1, t));
        if states[n].appended != states[n - 1].appended { assert |states[n].appended| != |states[n - 1].appended|; }
      } else {
        StartChangesNothing(states[n - 1], steps[n - 1]);
      }
    }
  }

  lemma StartChangesNothing(st: State, step: Step)
    requires Happens(st, step) && !step.Go?
    ensures Next(st, step).list == st.list && Next(st, step).appended == st.appended
  {
  }

  /** In every interleaving the k-th call of RemoveFront to return returns the item of the k-th call of
      Append to get to the list. */
  lemma ReturnedInOrder(states: seq<State>, steps: seq<Step>, n: nat, item: Item)
    requires IsRun(states, steps) && n < |steps| && Returns(states[n], steps[n], item)
    ensures var k, items := ReturnCount(states, steps, n), AppendedItems(states, steps, n);
            k < |items| && items[k] == item
  {
    hide Inv, LockInv, Next, Happens;
    RunsKeepInv(states, steps, n);
    InvLock(states[n]);
    ReturnsCounted(states, steps, n);
    AppendedByCalls(states, steps, n);
    assert HasTaken(states[n], steps[n].t, item);
  }

  /** A waiter whose signal has been sent and that has not looked at the list since. */
  ghost function Signalled(st: State): set<nat> {
    set t | t in st.pcs && (
      (Waiting(st.pcs[t]) && t !in st.waitQueue)
      || st.pcs[t] == TryLock(ToRecheck) || st.pcs[t] == LockAsleep(ToRecheck))
  }

  /** Outside critical sections, a thread is left waiting only while every element of the list has a
      signalled waiter still to look for it. */
  lemma NoLostSignal(states: seq<State>, steps: seq<Step>, n: nat)
    requires IsRun(states, steps) && n <= |steps|
    requires forall t :: RoleOf(states[n], t).Without?
    requires states[n].waitQueue != []
    ensures |states[n].list| <= |Signalled(states[n])|
  {
    RunsKeepInv(states, steps, n);
    var st := states[n];
    forall t | IsComing(st, t) ensures t in Signalled(st) { assert RoleOf(st, t).Without?; }
    forall t ensures !IsAt(st, t, Signal) { assert IsAt(st, t, Signal) ==> RoleOf(st, t) == Named; }
    SubsetSize(Coming(st), Signalled(st));
  }
}

/** The code of threads/synch.cc and threads/synchlist.cc, cut where another thread may run. Each method
    takes thread t one step through the function it is named after. */
module SynchLists {
  import opened Options
  import opened SynchListSpec

  class SynchList {
    var pcs: map<nat, Pc>
    var lockValue: int
    var lockQueue: seq<nat>
    var lockHolder: Option<nat>
    var waitQueue: seq<nat>
    var waiters: map<nat, int>
    var list: seq<Item>
    ghost var appended: seq<Item>
    ghost var removed: seq<Item>

    ghost function View(): State
      reads this
    {
      State(pcs, lockValue, lockQueue, lockHolder, waitQueue, waiters, list, appended, removed)
    }

    constructor ()
      ensures Initial(View()) && Inv(View())
    {
      pcs, lockValue, lockQueue, lockHolder := map[], 1, [], None;
      waitQueue, waiters, list, appended, removed := [], map[], [], [], [];
    }

    ghost predicate CanGo(t: nat)
      reads this
    {
      Inv(View()) && Enabled(View(), Go(t))
    }

    method Goto(t: nat, pc: Pc)
      modifies `pcs
      ensures View() == At(old(View()), t, pc)
    {
      pcs := pcs[t := pc];
    }

    /** Lock::Acquire. */
    method Acquire(t: nat)
      requires CanGo(t) && (pcs[t].TryLock? || pcs[t].GotLock?)
      modifies this
      ensures Inv(View()) && Becomes(old(View()), Go(t), View())
    {
      hide Inv;
      NextKeepsInv(View(), Go(t));
      var goal := pcs[t].goal;
      if pcs[t].TryLock? {
        if lockValue == 0 {
          lockQueue := lockQueue + [t];
          Goto(t, LockAsleep(goal));
        } else {
          lockValue := lockValue - 1;
          Goto(t, GotLock(goal));
        }
      } else {
        lockHolder := Some(t);
        match goal {
          case ToAppend(item) => Goto(t, AppendItem(item));
          case ToRemove => Goto(t, TestEmpty);
          case ToRecheck =>
            waiters := waiters - {t};
            Goto(t, TestEmpty);
        }
      }
    }

    /** Lock::Release. */
    method Release(t: nat)
      requires CanGo(t) && (pcs[t].Unlock? || pcs[t].FreeLock?)
      modifies this
      ensures Inv(View()) && Becomes(old(View()), Go(t), View())
    {
      hide Inv;
      NextKeepsInv(View(), Go(t));
      var after := pcs[t].after;
      if pcs[t].Unlock? {
        assert lockHolder == Some(t);
        lockHolder := None;
        Goto(t, FreeLock(after));
      } else {
        WakeLockSleeper();
        if after.ThenWait? {
          Goto(t, TryWaiter);
        } else {
          pcs := pcs - {t};
        }
      }
    }

    method WakeLockSleeper()
      modifies `lockValue, `lockQueue, `pcs
      ensures View() == FreeTheLock(old(View()))
    {
      if lockQueue != [] {
        var first := lockQueue[0];
        lockQueue := lockQueue[1..];
        if first in pcs && pcs[first].LockAsleep? {
          Goto(first, TryLock(pcs[first].goal));
        }
      }
      lockValue := lockValue + 1;
    }

    /** Condition::Wait, apart from the lock's own operations. */
    method Wait(t: nat)
      requires CanGo(t) && (pcs[t].Enqueue? || pcs[t].TryWaiter?)
      modifies this
      ensures Inv(View()) && Becomes(old(View()), Go(t), View())
    {
      hide Inv;
      NextKeepsInv(View(), Go(t));
      if pcs[t].Enqueue? {
        assert lockHolder == Some(t);
        waiters := waiters[t := 0];
        waitQueue := waitQueue + [t];
        Goto(t, Unlock(ThenWait));
      } else if waiters[t] == 0 {
        Goto(t, WaiterAsleep);
      } else {
        waiters := waiters[t := waiters[t] - 1];
        Goto(t, TryLock(ToRecheck));
      }
    }

    /** Condition::Signal. */
    method Signal(t: nat)
      requires CanGo(t) && (pcs[t].Signal? || pcs[t].WakeWaiter?)
      modifies this
      ensures Inv(View()) && Becomes(old(View()), Go(t), View())
    {
      hide Inv;
      NextKeepsInv(View(), Go(t));
      if pcs[t].Signal? {
        assert lockHolder == Some(t);
        if waitQueue == [] {
          Goto(t, Unlock(AppendDone));
        } else {
          var first := waitQueue[0];
          waitQueue := waitQueue[1..];
          Goto(t, WakeWaiter(first));
        }
      } else {
        var w := pcs[t].waiter;
        if w in pcs && pcs[w] == WaiterAsleep {
          Goto(w, TryWaiter);
        }
        waiters := waiters[w := waiters[w] + 1];
        Goto(t, Unlock(AppendDone));
      }
    }

    /** SynchList::Append, from its start to where it has the lock. */
    method StartAppend(t: nat, item: Item)
      requires Inv(View()) && t !in pcs
      modifies this
      ensures Inv(View()) && Becomes(old(View()), Step.StartAppend(t, item), View())
    {
      hide Inv;
      NextKeepsInv(View(), Step.StartAppend(t, item));
      Goto(t, TryLock(ToAppend(item)));
    }

    method Append(t: nat)
      requires CanGo(t) && pcs[t].AppendItem?
      modifies this
      ensures Inv(View()) && Becomes(old(View()), Go(t), View())
    {
      hide Inv;
      NextKeepsInv(View(), Go(t));
      var item := pcs[t].item;
      list, appended := list + [item], appended + [item];
      Goto(t, Pc.Signal);
    }

    /** SynchList::RemoveFront. */
    method StartRemove(t: nat)
      requires Inv(View()) && t !in pcs
      modifies this
      ensures Inv(View()) && Becomes(old(View()), Step.StartRemove(t), View())
    {
      hide Inv;
      NextKeepsInv(View(), Step.StartRemove(t));
      Goto(t, TryLock(ToRemove));
    }

    method RemoveFront(t: nat)
      requires CanGo(t) && (pcs[t].TestEmpty? || pcs[t].TakeItem?)
      modifies this
      ensures Inv(View()) && Becomes(old(View()), Go(t), View())
    {
      hide Inv;
      NextKeepsInv(View(), Go(t));
      if pcs[t].TestEmpty? {
        Goto(t, if list == [] then Enqueue else TakeItem);
      } else {
        var item := list[0];
        list, removed := list[1..], removed + [item];
        Goto(t, Unlock(RemoveDone(item)));
      }
    }
  }
}
