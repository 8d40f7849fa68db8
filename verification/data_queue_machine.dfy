/** DataQueue as the threads see it: a mutex, one condition variable that both
    producers and consumers wait on, and notifications that are sent only when
    the queue leaves the empty or the full state, after the mutex is released.

    Each action below is one indivisible step of one thread.  A critical section
    is one step, because the mutex hides its inside; the release of the mutex and
    the later `notify_all` are different steps, because other threads can run in
    between.  The answer of `abort_func` is unknown, so both outcomes are steps. */
module DataQueueMachine {

  const UINT32_MODULUS := 0x1_0000_0000
  const INT32_MAX := 0x7FFF_FFFF

  /** What the queue reads of an AVData: its identity and its `len`. */
  datatype Item = Item(id: nat, len: int)

  datatype Thread =
    | Idle
    | PushEntering(item: Item)  // wants the mutex
    | PushLocked(item: Item)    // holds the mutex, at the loop test
    | PushAsleep(item: Item)    // inside cond_.wait
    | PushNotifying             // mutex released, was_empty is true
    | PopEntering
    | PopLocked
    | PopAsleep
    | PopNotifying              // mutex released, was_full is true

  datatype Owner = Free | HeldBy(thread: nat)

  /** `pushed` and `popped` are the history since the queue was last cleared. */
  datatype State = State(
    total: nat, items: seq<Item>, owner: Owner, threads: seq<Thread>,
    pushed: seq<Item>, popped: seq<Item>)

  datatype Action =
    | StartPush(t: nat, item: Item)
    | StartPop(t: nat)
    | Acquire(t: nat)
    | PushWait(t: nat)
    | PushAbort(t: nat)
    | PushEnqueue(t: nat)
    | PopWait(t: nat)
    | PopAbort(t: nat)
    | PopDequeue(t: nat)
    | NotifyAll(t: nat)
    | SpuriousWake(t: nat)
    | OutsideNotify
    | Clear

  /** The template parameter MAX_SIZE, and the largest `len` any producer uses. */
  datatype Limits = Limits(maxSize: nat, maxLen: nat) {
    predicate Fit() {
      maxSize + maxLen <= UINT32_MODULUS
    }
  }

  function Initial(threads: nat): State {
    State(0, [], Free, seq(threads, _ => Idle), [], [])
  }

  function SumLen(items: seq<Item>): int {
    if items == [] then 0 else SumLen(items[..|items| - 1]) + items[|items| - 1].len
  }

  /** What `notify_all` does to one thread. */
  function Woken(thread: Thread): Thread {
    match thread
    case PushAsleep(item) => PushEntering(item)
    case PopAsleep => PopEntering
    case _ => thread
  }

  function WakeAll(threads: seq<Thread>): seq<Thread> {
    seq(|threads|, i requires 0 <= i < |threads| => Woken(threads[i]))
  }

  predicate ProducerAsleep(s: State) {
    exists t :: 0 <= t < |s.threads| && s.threads[t].PushAsleep?
  }

  predicate ConsumerAsleep(s: State) {
    exists t :: 0 <= t < |s.threads| && s.threads[t].PopAsleep?
  }

  /** Some thread has left the critical section and will call `notify_all`. */
  predicate NotifyPending(s: State) {
    exists t :: 0 <= t < |s.threads| && (s.threads[t].PushNotifying? || s.threads[t].PopNotifying?)
  }

  predicate At(s: State, t: nat) {
    t < |s.threads|
  }

  /** Clear is called without waking anybody, so it must not empty a queue whose
      producers sleep; ClearKeepsWakeupsExactlyWhen shows this guard is exact. */
  predicate ClearAllowed(s: State) {
    !ProducerAsleep(s) || NotifyPending(s)
  }

  predicate Enabled(limits: Limits, s: State, a: Action) {
    match a
    case StartPush(t, item) => At(s, t) && s.threads[t].Idle? && 0 <= item.len <= limits.maxLen
    case StartPop(t) => At(s, t) && s.threads[t].Idle?
    case Acquire(t) =>
      At(s, t) && (s.threads[t].PushEntering? || s.threads[t].PopEntering?) && s.owner == Free
    case PushWait(t) => At(s, t) && s.threads[t].PushLocked? && s.total >= limits.maxSize
    case PushAbort(t) => At(s, t) && s.threads[t].PushLocked? && s.total >= limits.maxSize
    case PushEnqueue(t) => At(s, t) && s.threads[t].PushLocked? && s.total < limits.maxSize
    case PopWait(t) => At(s, t) && s.threads[t].PopLocked? && s.items == []
    case PopAbort(t) => At(s, t) && s.threads[t].PopLocked? && s.items == []
    case PopDequeue(t) => At(s, t) && s.threads[t].PopLocked? && s.items != []
    case NotifyAll(t) => At(s, t) && (s.threads[t].PushNotifying? || s.threads[t].PopNotifying?)
    case SpuriousWake(t) => At(s, t) && (s.threads[t].PushAsleep? || s.threads[t].PopAsleep?)
    case OutsideNotify => true
    case Clear => s.owner == Free && ClearAllowed(s)
  }

  /** uint32 arithmetic. */
  function Wrap(n: int): nat {
    if 0 <= n < UINT32_MODULUS then n else n % UINT32_MODULUS
  }

  /** The critical section of a Push that found room. */
  function Enqueued(s: State, t: nat): State
    requires At(s, t) && s.threads[t].PushLocked?
  {
    var item := s.threads[t].item;
    var wasEmpty := s.items == [];
    s.(total := Wrap(s.total + item.len), items := s.items + [item],
       pushed := s.pushed + [item], owner := Free,
       threads := s.threads[t := if wasEmpty then PushNotifying else Idle])
  }

  /** The critical section of a Pop that found an item. */
  function Dequeued(limits: Limits, s: State, t: nat): State
    requires At(s, t) && s.items != []
  {
    var wasFull := s.total >= limits.maxSize;
    s.(total := Wrap(s.total - s.items[0].len), items := s.items[1..],
       popped := s.popped + [s.items[0]], owner := Free,
       threads := s.threads[t := if wasFull then PopNotifying else Idle])
  }

  function Emptied(s: State): State {
    s.(total := Wrap(s.total - SumLen(s.items)), items := [], pushed := [], popped := [])
  }

  function Next(limits: Limits, s: State, a: Action): State
    requires Enabled(limits, s, a)
  {
    match a
    case StartPush(t, item) => s.(threads := s.threads[t := PushEntering(item)])
    case StartPop(t) => s.(threads := s.threads[t := PopEntering])
    case Acquire(t) =>
      s.(owner := HeldBy(t),
         threads := s.threads[t := if s.threads[t].PopEntering? then PopLocked
                                   else PushLocked(s.threads[t].item)])
    case PushWait(t) => s.(owner := Free, threads := s.threads[t := PushAsleep(s.threads[t].item)])
    case PushAbort(t) => s.(owner := Free, threads := s.threads[t := Idle])
    case PushEnqueue(t) => Enqueued(s, t)
    case PopWait(t) => s.(owner := Free, threads := s.threads[t := PopAsleep])
    case PopAbort(t) => s.(owner := Free, threads := s.threads[t := Idle])
    case PopDequeue(t) => Dequeued(limits, s, t)
    case NotifyAll(t) => s.(threads := WakeAll(s.threads[t := Idle]))
    case SpuriousWake(t) => s.(threads := s.threads[t := Woken(s.threads[t])])
    case OutsideNotify => s.(threads := WakeAll(s.threads))
    case Clear => Emptied(s)
  }

  /** A run: every action is enabled in the state its predecessors leave. */
  predicate IsRun(limits: Limits, s: State, actions: seq<Action>)
    decreases |actions|, 0
  {
    actions == [] ||
    (IsRun(limits, s, actions[..|actions| - 1]) &&
     Enabled(limits, After(limits, s, actions[..|actions| - 1]), actions[|actions| - 1]))
  }

  function After(limits: Limits, s: State, actions: seq<Action>): State
    requires IsRun(limits, s, actions)
    decreases |actions|, 1
  {
    if actions == [] then s
    else Next(limits, After(limits, s, actions[..|actions| - 1]), actions[|actions| - 1])
  }

  // ----- the inductive invariant, one concern at a time -----

  predicate Locked(thread: Thread) {
    thread.PushLocked? || thread.PopLocked?
  }

  ghost predicate MutualExclusion(s: State) {
    && (s.owner.HeldBy? ==> At(s, s.owner.thread) && Locked(s.threads[s.owner.thread]))
    && forall t :: 0 <= t < |s.threads| && Locked(s.threads[t]) ==> s.owner == HeldBy(t)
  }

  ghost predicate ItemsOk(limits: Limits, items: seq<Item>) {
    forall i :: 0 <= i < |items| ==> 0 <= items[i].len <= limits.maxLen
  }

  predicate CarriesOk(limits: Limits, thread: Thread) {
    match thread
    case PushEntering(item) => 0 <= item.len <= limits.maxLen
    case PushLocked(item) => 0 <= item.len <= limits.maxLen
    case PushAsleep(item) => 0 <= item.len <= limits.maxLen
    case _ => true
  }

  ghost predicate CarriedItemsOk(limits: Limits, s: State) {
    forall t :: 0 <= t < |s.threads| ==> CarriesOk(limits, s.threads[t])
  }

  /** `total_size_` is the sum of the queued lengths and overshoots MAX_SIZE by
      less than one item. */
  ghost predicate Accounting(limits: Limits, s: State) {
    && ItemsOk(limits, s.items) && CarriedItemsOk(limits, s)
    && s.total == SumLen(s.items)
    && (s.total == 0 || s.total < limits.maxSize + limits.maxLen)
  }

  ghost predicate Fifo(s: State) {
    s.popped + s.items == s.pushed
  }

  /** No wake-up is lost: whoever sleeps still has a reason to, or will be woken. */
  ghost predicate NoLostWakeup(limits: Limits, s: State) {
    && (ConsumerAsleep(s) ==> s.items == [] || NotifyPending(s))
    && (ProducerAsleep(s) ==> s.total >= limits.maxSize || NotifyPending(s))
  }

  ghost predicate Inv(limits: Limits, s: State) {
    MutualExclusion(s) && Accounting(limits, s) && Fifo(s) && NoLostWakeup(limits, s)
  }

  // ----- sums -----

  lemma {:induction false} SumLenOfTail(items: seq<Item>)
    requires items != []
    ensures SumLen(items) == items[0].len + SumLen(items[1..])
  {
    var n := |items|;
    if n == 1 {
      assert SumLen(items[..0]) == 0;
    } else {
      SumLenOfTail(items[..n - 1]);
      assert items[..n - 1][1..] == items[1..][..n - 2];
    }
  }

  lemma {:induction false} SumLenNonNegative(limits: Limits, items: seq<Item>)
    requires ItemsOk(limits, items)
    ensures SumLen(items) >= 0
  {
    if items != [] {
      SumLenNonNegative(limits, items[..|items| - 1]);
    }
  }

  // ----- every step keeps the invariant -----

  lemma MutualExclusionKept(limits: Limits, s: State, a: Action)
    requires MutualExclusion(s) && Enabled(limits, s, a)
    ensures MutualExclusion(Next(limits, s, a))
  {
    var s' := Next(limits, s, a);
    assert |s'.threads| == |s.threads|;
  }

  lemma CarriedItemsKept(limits: Limits, s: State, a: Action)
    requires CarriedItemsOk(limits, s) && Enabled(limits, s, a)
    ensures CarriedItemsOk(limits, Next(limits, s, a))
  {
    var s' := Next(limits, s, a);
    assert |s'.threads| == |s.threads|;
    forall t | 0 <= t < |s'.threads|
      ensures CarriesOk(limits, s'.threads[t])
    {
      assert CarriesOk(limits, s.threads[t]);
    }
  }

  /** Adding an item to a queue that is below MAX_SIZE does not wrap uint32. */
  lemma EnqueueAccounting(limits: Limits, s: State, t: nat)
    requires limits.Fit() && Accounting(limits, s)
    requires At(s, t) && s.threads[t].PushLocked? && s.total < limits.maxSize
    ensures var s' := Enqueued(s, t);
            && s'.total == s.total + s.threads[t].item.len == SumLen(s'.items)
            && s'.total < limits.maxSize + limits.maxLen
            && ItemsOk(limits, s'.items)
  {
    var item := s.threads[t].item;
    assert CarriesOk(limits, s.threads[t]);
    assert (s.items + [item])[..|s.items|] == s.items;
  }

  /** Removing the front item does not wrap below zero. */
  lemma DequeueAccounting(limits: Limits, s: State, t: nat)
    requires limits.Fit() && Accounting(limits, s)
    requires At(s, t) && s.items != []
    ensures var s' := Dequeued(limits, s, t);
            && s'.total == s.total - s.items[0].len == SumLen(s'.items)
            && ItemsOk(limits, s'.items)
  {
    SumLenOfTail(s.items);
    SumLenNonNegative(limits, s.items[1..]);
  }

  lemma AccountingKept(limits: Limits, s: State, a: Action)
    requires limits.Fit() && Accounting(limits, s) && Enabled(limits, s, a)
    ensures Accounting(limits, Next(limits, s, a))
  {
    CarriedItemsKept(limits, s, a);
    match a
    case PushEnqueue(t) => EnqueueAccounting(limits, s, t);
    case PopDequeue(t) => DequeueAccounting(limits, s, t);
    case _ =>
  }

  /** When one thread moves and it was not the one about to notify, a pending
      notification stays pending, and nobody else falls asleep. */
  lemma OneThreadMoved(s: State, s': State, t: nat)
    requires At(s, t) && |s'.threads| == |s.threads|
    requires forall i :: 0 <= i < |s.threads| && i != t ==> s'.threads[i] == s.threads[i]
    requires !s.threads[t].PushNotifying? && !s.threads[t].PopNotifying?
    ensures NotifyPending(s) ==> NotifyPending(s')
    ensures s'.threads[t].PushNotifying? || s'.threads[t].PopNotifying? ==> NotifyPending(s')
    ensures ProducerAsleep(s') ==> ProducerAsleep(s) || s'.threads[t].PushAsleep?
    ensures ConsumerAsleep(s') ==> ConsumerAsleep(s) || s'.threads[t].PopAsleep?
  {
    if NotifyPending(s) {
      var u :| 0 <= u < |s.threads| && (s.threads[u].PushNotifying? || s.threads[u].PopNotifying?);
      assert s'.threads[u] == s.threads[u];
    }
  }

  lemma NobodySleepsAfterNotify(s: State, threads: seq<Thread>)
    requires s.threads == WakeAll(threads)
    ensures !ProducerAsleep(s) && !ConsumerAsleep(s)
  {
  }

  /** The steps that touch the queue. */
  lemma WakeupsKeptByQueueSteps(limits: Limits, s: State, a: Action)
    requires limits.Fit() && Accounting(limits, s) && NoLostWakeup(limits, s) && Enabled(limits, s, a)
    requires a.PushEnqueue? || a.PopDequeue?
    ensures NoLostWakeup(limits, Next(limits, s, a))
  {
    var s' := Next(limits, s, a);
    OneThreadMoved(s, s', a.t);
    if a.PushEnqueue? {
      EnqueueAccounting(limits, s, a.t);
      assert CarriesOk(limits, s.threads[a.t]);
    } else {
      assert s'.total < limits.maxSize && ProducerAsleep(s) ==> NotifyPending(s');
    }
  }

  /** The steps of one thread that do not. */
  lemma WakeupsKeptByThreadSteps(limits: Limits, s: State, a: Action)
    requires NoLostWakeup(limits, s) && Enabled(limits, s, a)
    requires !a.PushEnqueue? && !a.PopDequeue? && !a.NotifyAll? && !a.OutsideNotify? && !a.Clear?
    ensures NoLostWakeup(limits, Next(limits, s, a))
  {
    var s' := Next(limits, s, a);
    assert s'.items == s.items && s'.total == s.total;
    OneThreadMoved(s, s', a.t);
  }

  lemma WakeupsKept(limits: Limits, s: State, a: Action)
    requires limits.Fit() && Accounting(limits, s) && NoLostWakeup(limits, s) && Enabled(limits, s, a)
    ensures NoLostWakeup(limits, Next(limits, s, a))
  {
    match a
    case PushEnqueue(_) => WakeupsKeptByQueueSteps(limits, s, a);
    case PopDequeue(_) => WakeupsKeptByQueueSteps(limits, s, a);
    case NotifyAll(t) => NobodySleepsAfterNotify(Next(limits, s, a), s.threads[t := Idle]);
    case OutsideNotify => NobodySleepsAfterNotify(Next(limits, s, a), s.threads);
    case Clear => assert Next(limits, s, a).threads == s.threads;
    case _ => WakeupsKeptByThreadSteps(limits, s, a);
  }

  lemma FifoKept(limits: Limits, s: State, a: Action)
    requires Fifo(s) && Enabled(limits, s, a)
    ensures Fifo(Next(limits, s, a))
  {
    var s' := Next(limits, s, a);
    if a.PopDequeue? {
      assert s'.popped + s'.items == s.popped + ([s.items[0]] + s.items[1..]);
    } else if a.PushEnqueue? {
      assert s'.popped + s'.items == (s.popped + s.items) + [s.threads[a.t].item];
    }
  }

  lemma InvKept(limits: Limits, s: State, a: Action)
    requires limits.Fit() && Inv(limits, s) && Enabled(limits, s, a)
    ensures Inv(limits, Next(limits, s, a))
  {
    MutualExclusionKept(limits, s, a);
    AccountingKept(limits, s, a);
    WakeupsKept(limits, s, a);
    FifoKept(limits, s, a);
  }

  /** The invariant holds after every run, of any length, by any number of threads. */
  lemma {:induction false} ReachableStatesAreSafe(limits: Limits, threads: nat, actions: seq<Action>)
    requires limits.Fit() && IsRun(limits, Initial(threads), actions)
    ensures Inv(limits, After(limits, Initial(threads), actions))
  {
    if actions != [] {
      ReachableStatesAreSafe(limits, threads, actions[..|actions| - 1]);
      InvKept(limits, After(limits, Initial(threads), actions[..|actions| - 1]), actions[|actions| - 1]);
    }
  }

  // ----- what that means -----

  /** A producer and a consumer are never both asleep with nobody left to notify. */
  lemma NeverBothAsleep(limits: Limits, threads: nat, actions: seq<Action>)
    requires limits.Fit() && limits.maxSize > 0 && IsRun(limits, Initial(threads), actions)
    ensures var s := After(limits, Initial(threads), actions);
            !(ProducerAsleep(s) && ConsumerAsleep(s) && !NotifyPending(s))
  {
    ReachableStatesAreSafe(limits, threads, actions);
  }

  /** A thread inside a call that does not sleep. */
  predicate Busy(s: State, t: nat) {
    At(s, t) && !s.threads[t].Idle? && !s.threads[t].PushAsleep? && !s.threads[t].PopAsleep?
  }

  /** What it does next, when abort_func says no. */
  function NextStep(limits: Limits, s: State, t: nat): Action
    requires Busy(s, t)
  {
    match s.threads[t]
    case PushLocked(_) => if s.total >= limits.maxSize then PushWait(t) else PushEnqueue(t)
    case PopLocked => if s.items == [] then PopWait(t) else PopDequeue(t)
    case PushNotifying => NotifyAll(t)
    case PopNotifying => NotifyAll(t)
    case _ => Acquire(t)
  }

  /** With the mutex in order, a busy thread can take its next step, or waits for one that
      can; an abort is possible exactly where waiting is. */
  lemma BusyThreadsGoOn(limits: Limits, s: State, t: nat)
    requires MutualExclusion(s) && Busy(s, t)
    ensures exists u :: Busy(s, u) && Enabled(limits, s, NextStep(limits, s, u))
    ensures Enabled(limits, s, PushAbort(t)) <==> NextStep(limits, s, t).PushWait?
    ensures Enabled(limits, s, PopAbort(t)) <==> NextStep(limits, s, t).PopWait?
  {
    if (s.threads[t].PushEntering? || s.threads[t].PopEntering?) && s.owner.HeldBy? {
      var u := s.owner.thread;
      assert Locked(s.threads[u]);
      assert Busy(s, u) && Enabled(limits, s, NextStep(limits, s, u));
    } else {
      assert Enabled(limits, s, NextStep(limits, s, t));
    }
  }

  /** Anybody outside may notify at any time, and a sleeper may wake without a reason; it then
      tries again what it was doing. */
  lemma SleepersMayWake(limits: Limits, s: State, t: nat)
    requires At(s, t) && (s.threads[t].PushAsleep? || s.threads[t].PopAsleep?)
    ensures Enabled(limits, s, SpuriousWake(t)) && Enabled(limits, s, OutsideNotify)
    ensures var alone, all := Next(limits, s, SpuriousWake(t)), Next(limits, s, OutsideNotify);
            && At(alone, t) && At(all, t) && alone.threads[t] == all.threads[t]
            && alone.threads[t] == (if s.threads[t].PopAsleep? then PopEntering else PushEntering(s.threads[t].item))
            && alone.items == all.items == s.items && alone.owner == all.owner == s.owner
  {
  }

  /** No reachable state is a deadlock: either a busy thread can go on, or all threads are
      idle or asleep, and then those asleep are producers at a full queue or consumers at
      an empty one, not both. */
  lemma NoDeadlock(limits: Limits, threads: nat, actions: seq<Action>)
    requires limits.Fit() && limits.maxSize > 0 && IsRun(limits, Initial(threads), actions)
    ensures var s := After(limits, Initial(threads), actions);
            || (exists u :: Busy(s, u) && Enabled(limits, s, NextStep(limits, s, u)))
            || ((forall t :: At(s, t) ==> !Busy(s, t)) &&
                (ProducerAsleep(s) ==> s.total >= limits.maxSize && !ConsumerAsleep(s)) &&
                (ConsumerAsleep(s) ==> s.items == []))
  {
    hide IsRun, After, Enabled, Accounting;
    ReachableStatesAreSafe(limits, threads, actions);
    NeverBothAsleep(limits, threads, actions);
    var s := After(limits, Initial(threads), actions);
    if t: nat :| Busy(s, t) {
      BusyThreadsGoOn(limits, s, t);
    } else {
      NobodyBusyNobodyNotifies(s);
    }
  }

  lemma NobodyBusyNobodyNotifies(s: State)
    requires forall t: nat :: !Busy(s, t)
    ensures !NotifyPending(s)
  {
    if NotifyPending(s) {
      var t :| 0 <= t < |s.threads| && (s.threads[t].PushNotifying? || s.threads[t].PopNotifying?);
      assert Busy(s, t);
    }
  }

  /** With MAX_SIZE 2^30, as ScreenRecorder instantiates it, and any `int` lengths,
      no addition to or subtraction from total_size_ ever wraps: total_size_ is
      the plain sum of what is queued, and items leave in the order they came. */
  lemma RecorderQueueNeverWraps(threads: nat, actions: seq<Action>, limits: Limits)
    requires limits == Limits(0x4000_0000, INT32_MAX)
    requires IsRun(limits, Initial(threads), actions)
    ensures var s := After(limits, Initial(threads), actions);
            && s.total == SumLen(s.items) < limits.maxSize + limits.maxLen < UINT32_MODULUS
            && s.popped + s.items == s.pushed
            && forall t: nat :: At(s, t) && Enabled(limits, s, PushEnqueue(t)) ==>
                 Next(limits, s, PushEnqueue(t)).total == s.total + s.threads[t].item.len
  {
    ReachableStatesAreSafe(limits, threads, actions);
    var s := After(limits, Initial(threads), actions);
    forall t: nat | At(s, t) && Enabled(limits, s, PushEnqueue(t))
      ensures Next(limits, s, PushEnqueue(t)).total == s.total + s.threads[t].item.len
    {
      EnqueueAccounting(limits, s, t);
    }
  }

  /** Clear sends no notification.  In a state whose accounting is right, emptying
      the queue keeps the wake-up guarantee exactly when no producer sleeps without
      a notification on its way. */
  lemma ClearKeepsWakeupsExactlyWhen(limits: Limits, s: State)
    requires limits.maxSize > 0 && Accounting(limits, s) && NoLostWakeup(limits, s)
    ensures NoLostWakeup(limits, Emptied(s)) <==> ClearAllowed(s)
  {
    assert Emptied(s).total == 0;
    assert Emptied(s).threads == s.threads;
  }

  /** A reachable state in which that guard fails: one producer fills the queue and
      sleeps on its second push. */
  lemma ClearCanStrandAProducer() returns (limits: Limits, actions: seq<Action>)
    ensures limits.Fit() && limits.maxSize > 0 && IsRun(limits, Initial(1), actions)
    ensures var s := After(limits, Initial(1), actions);
            s.owner == Free && !ClearAllowed(s) && !NoLostWakeup(limits, Emptied(s))
  {
    limits := Limits(8, 8);
    var item := Item(0, 8);
    FullQueueIsReachable(limits, item);
    var filling := FillOnce(item);
    var full := After(limits, Initial(1), filling);
    Extend(limits, Initial(1), filling, StartPush(0, item));
    var entering := filling + [StartPush(0, item)];
    Extend(limits, Initial(1), entering, Acquire(0));
    var holding := entering + [Acquire(0)];
    Extend(limits, Initial(1), holding, PushWait(0));
    actions := holding + [PushWait(0)];
    var s := After(limits, Initial(1), actions);
    assert s.threads == [PushAsleep(item)];
    assert s.threads[0].PushAsleep?;
    ReachableStatesAreSafe(limits, 1, actions);
    ClearKeepsWakeupsExactlyWhen(limits, s);
  }

  function FillOnce(item: Item): seq<Action> {
    [StartPush(0, item)] + [Acquire(0)] + [PushEnqueue(0)] + [NotifyAll(0)]
  }

  lemma FullQueueIsReachable(limits: Limits, item: Item)
    requires limits == Limits(8, 8) && item == Item(0, 8)
    ensures IsRun(limits, Initial(1), FillOnce(item))
    ensures After(limits, Initial(1), FillOnce(item)) == State(8, [item], Free, [Idle], [item], [])
  {
    Extend(limits, Initial(1), [], StartPush(0, item));
    assert [] + [StartPush(0, item)] == [StartPush(0, item)];
    Extend(limits, Initial(1), [StartPush(0, item)], Acquire(0));
    var s2 := State(0, [], HeldBy(0), [PushLocked(item)], [], []);
    assert After(limits, Initial(1), [StartPush(0, item)] + [Acquire(0)]) == s2;
    Extend(limits, Initial(1), [StartPush(0, item)] + [Acquire(0)], PushEnqueue(0));
    var s3 := State(8, [item], Free, [PushNotifying], [item], []);
    assert Enqueued(s2, 0) == s3;
    Extend(limits, Initial(1), [StartPush(0, item)] + [Acquire(0)] + [PushEnqueue(0)], NotifyAll(0));
    assert WakeAll([Idle]) == [Idle];
    assert s3.threads[0 := Idle] == [Idle];
  }

  lemma Extend(limits: Limits, s: State, actions: seq<Action>, a: Action)
    requires IsRun(limits, s, actions) && Enabled(limits, After(limits, s, actions), a)
    ensures IsRun(limits, s, actions + [a])
    ensures After(limits, s, actions + [a]) == Next(limits, After(limits, s, actions), a)
  {
    assert (actions + [a])[..|actions|] == actions;
  }
}
