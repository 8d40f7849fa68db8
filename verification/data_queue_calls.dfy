/** What becomes of the calls of Push and Pop: in every run of DataQueueMachine each call
    that was begun has succeeded, was told to abort, or is still in progress with the item
    it was given. */
module DataQueueCalls {
  import opened DataQueueMachine

  datatype Call = Pushing(item: Item) | Popping

  /** The call that a thread is in the middle of. */
  function Unfinished(thread: Thread): seq<Call> {
    match thread
    case PushEntering(item) => [Pushing(item)]
    case PushLocked(item) => [Pushing(item)]
    case PushAsleep(item) => [Pushing(item)]
    case PopEntering => [Popping]
    case PopLocked => [Popping]
    case PopAsleep => [Popping]
    case _ => []
  }

  // ----- what one step begins and ends -----

  function Begins(a: Action): seq<Call> {
    match a
    case StartPush(_, item) => [Pushing(item)]
    case StartPop(_) => [Popping]
    case _ => []
  }

  /** Push returns true for the item that was given to it, Pop for any item. */
  function Succeeds(limits: Limits, s: State, a: Action): seq<Call>
    requires Enabled(limits, s, a)
  {
    match a
    case PushEnqueue(t) => [Pushing(s.threads[t].item)]
    case PopDequeue(_) => [Popping]
    case _ => []
  }

  function Aborts(limits: Limits, s: State, a: Action): seq<Call>
    requires Enabled(limits, s, a)
  {
    match a
    case PushAbort(t) => [Pushing(s.threads[t].item)]
    case PopAbort(_) => [Popping]
    case _ => []
  }

  // ----- one thread, call by call -----

  predicate IsBy(a: Action, t: nat) {
    match a
    case OutsideNotify => false
    case Clear => false
    case _ => a.t == t
  }

  function Begun(actions: seq<Action>, t: nat): seq<Call> {
    if actions == [] then []
    else
      var a := actions[|actions| - 1];
      Begun(actions[..|actions| - 1], t) + (if IsBy(a, t) then Begins(a) else [])
  }

  function Ended(limits: Limits, s: State, actions: seq<Action>, t: nat): seq<Call>
    requires IsRun(limits, s, actions)
    decreases |actions|
  {
    if actions == [] then []
    else
      var before, a := actions[..|actions| - 1], actions[|actions| - 1];
      var s' := After(limits, s, before);
      Ended(limits, s, before, t) + (if IsBy(a, t) then Succeeds(limits, s', a) + Aborts(limits, s', a) else [])
  }

  lemma StepOfThread(limits: Limits, s: State, a: Action, t: nat)
    requires Enabled(limits, s, a) && At(s, t)
    ensures var s' := Next(limits, s, a);
            && At(s', t)
            && Unfinished(s.threads[t]) + (if IsBy(a, t) then Begins(a) else []) ==
               (if IsBy(a, t) then Succeeds(limits, s, a) + Aborts(limits, s, a) else []) + Unfinished(s'.threads[t])
  {
    hide Wrap;
  }

  lemma {:induction false} StaysAt(limits: Limits, threads: nat, actions: seq<Action>)
    requires IsRun(limits, Initial(threads), actions)
    ensures |After(limits, Initial(threads), actions).threads| == threads
  {
    if actions != [] {
      StaysAt(limits, threads, actions[..|actions| - 1]);
    }
  }

  lemma Regroup<T>(ended: seq<T>, before: seq<T>, begins: seq<T>, ends: seq<T>, after: seq<T>)
    requires before + begins == ends + after
    ensures (ended + before) + begins == (ended + ends) + after
  {
    assert (ended + before) + begins == ended + (before + begins);
    assert (ended + ends) + after == ended + (ends + after);
  }

  /** The calls that a thread began are, in order, those that ended and the one it is in
      the middle of: no notification loses or changes a call. */
  lemma {:induction false} NoCallIsLost(limits: Limits, threads: nat, actions: seq<Action>, t: nat)
    requires IsRun(limits, Initial(threads), actions) && t < threads
    ensures At(After(limits, Initial(threads), actions), t)
    ensures Begun(actions, t) ==
            Ended(limits, Initial(threads), actions, t) + Unfinished(After(limits, Initial(threads), actions).threads[t])
  {
    hide Enabled, Next, Unfinished, Begins, Succeeds, Aborts, IsBy, Initial;
    StaysAt(limits, threads, actions);
    if actions == [] {
      InitiallyIdle(threads, t);
    } else {
      var before, a := actions[..|actions| - 1], actions[|actions| - 1];
      var s := After(limits, Initial(threads), before);
      NoCallIsLost(limits, threads, before, t);
      StepOfThread(limits, s, a, t);
      Regroup(Ended(limits, Initial(threads), before, t), Unfinished(s.threads[t]), if IsBy(a, t) then Begins(a) else [],
              if IsBy(a, t) then Succeeds(limits, s, a) + Aborts(limits, s, a) else [],
              Unfinished(Next(limits, s, a).threads[t]));
    }
  }

  lemma InitiallyIdle(threads: nat, t: nat)
    requires t < threads
    ensures Unfinished(Initial(threads).threads[t]) == []
  {
  }

  // ----- all threads together, counted call by call -----

  function One(calls: seq<Call>, c: Call): nat {
    if calls == [c] then 1 else 0
  }

  /** How many threads are in the middle of the call `c`. */
  function InProgress(threads: seq<Thread>, c: Call): nat {
    if threads == [] then 0
    else InProgress(threads[..|threads| - 1], c) + One(Unfinished(threads[|threads| - 1]), c)
  }

  /** How often a thread began the call `c`. */
  function TimesBegun(actions: seq<Action>, c: Call): nat {
    if actions == [] then 0
    else TimesBegun(actions[..|actions| - 1], c) + One(Begins(actions[|actions| - 1]), c)
  }

  function TimesSucceeded(limits: Limits, s: State, actions: seq<Action>, c: Call): nat
    requires IsRun(limits, s, actions)
    decreases |actions|
  {
    if actions == [] then 0
    else
      var before := actions[..|actions| - 1];
      TimesSucceeded(limits, s, before, c) +
      One(Succeeds(limits, After(limits, s, before), actions[|actions| - 1]), c)
  }

  function TimesAborted(limits: Limits, s: State, actions: seq<Action>, c: Call): nat
    requires IsRun(limits, s, actions)
    decreases |actions|
  {
    if actions == [] then 0
    else
      var before := actions[..|actions| - 1];
      TimesAborted(limits, s, before, c) +
      One(Aborts(limits, After(limits, s, before), actions[|actions| - 1]), c)
  }

  /** One thread changes. */
  lemma {:induction false} InProgressWith(threads: seq<Thread>, t: nat, thread: Thread, c: Call)
    requires t < |threads|
    ensures InProgress(threads[t := thread], c) + One(Unfinished(threads[t]), c) ==
            InProgress(threads, c) + One(Unfinished(thread), c)
  {
    hide Unfinished, One;
    var n := |threads| - 1;
    var changed := threads[t := thread];
    if t < n {
      assert changed[..n] == threads[..n][t := thread] && changed[n] == threads[n];
      InProgressWith(threads[..n], t, thread, c);
    } else {
      assert changed[..n] == threads[..n];
    }
  }

  lemma WokenGoesOn(thread: Thread)
    ensures Unfinished(Woken(thread)) == Unfinished(thread)
  {
  }

  /** notify_all ends no call. */
  lemma {:induction false} InProgressWhenWoken(threads: seq<Thread>, c: Call)
    ensures InProgress(WakeAll(threads), c) == InProgress(threads, c)
  {
    hide Unfinished, Woken, One;
    if threads != [] {
      var n := |threads| - 1;
      assert WakeAll(threads)[..n] == WakeAll(threads[..n]);
      InProgressWhenWoken(threads[..n], c);
      WokenGoesOn(threads[n]);
    }
  }

  /** The steps that move just one thread. */
  lemma StepOfOne(limits: Limits, s: State, a: Action, c: Call)
    requires Enabled(limits, s, a) && !a.NotifyAll? && !a.OutsideNotify? && !a.Clear?
    ensures At(s, a.t) && At(Next(limits, s, a), a.t)
    ensures Next(limits, s, a).threads == s.threads[a.t := Next(limits, s, a).threads[a.t]]
    ensures One(Unfinished(s.threads[a.t]), c) + One(Begins(a), c) ==
            One(Succeeds(limits, s, a), c) + One(Aborts(limits, s, a), c) +
            One(Unfinished(Next(limits, s, a).threads[a.t]), c)
  {
    hide Wrap;
  }

  lemma NotifierIsDone(thread: Thread, c: Call)
    requires thread.PushNotifying? || thread.PopNotifying? || thread == Idle
    ensures One(Unfinished(thread), c) == 0
  {
  }

  lemma StepConserves(limits: Limits, s: State, a: Action, c: Call)
    requires Enabled(limits, s, a)
    ensures InProgress(s.threads, c) + One(Begins(a), c) ==
            One(Succeeds(limits, s, a), c) + One(Aborts(limits, s, a), c) +
            InProgress(Next(limits, s, a).threads, c)
  {
    hide InProgress, Unfinished, WakeAll;
    if a.NotifyAll? {
      InProgressWith(s.threads, a.t, Idle, c);
      NotifierIsDone(s.threads[a.t], c);
      NotifierIsDone(Idle, c);
      InProgressWhenWoken(s.threads[a.t := Idle], c);
    } else if a.OutsideNotify? {
      InProgressWhenWoken(s.threads, c);
    } else if !a.Clear? {
      hide Enabled, Next, Begins, Succeeds, Aborts, One;
      StepOfOne(limits, s, a, c);
      InProgressWith(s.threads, a.t, Next(limits, s, a).threads[a.t], c);
    }
  }

  /** In every run, with or without Clear, and for every call: it was begun as often as it
      succeeded, was told to abort, and is in progress. */
  lemma {:induction false} CallsConserved(limits: Limits, threads: nat, actions: seq<Action>, c: Call)
    requires IsRun(limits, Initial(threads), actions)
    ensures var s := Initial(threads);
            TimesBegun(actions, c) ==
            TimesSucceeded(limits, s, actions, c) + TimesAborted(limits, s, actions, c) +
            InProgress(After(limits, s, actions).threads, c)
  {
    hide Enabled, Next, InProgress, Begins, Succeeds, Aborts, Initial, One;
    if actions == [] {
      NothingInProgress(threads, c);
    } else {
      var before := actions[..|actions| - 1];
      CallsConserved(limits, threads, before, c);
      StepConserves(limits, After(limits, Initial(threads), before), actions[|actions| - 1], c);
    }
  }

  lemma {:induction false} NothingInProgress(threads: nat, c: Call)
    ensures InProgress(Initial(threads).threads, c) == 0
  {
    if threads > 0 {
      assert Initial(threads).threads[..threads - 1] == Initial(threads - 1).threads;
      NothingInProgress(threads - 1, c);
    }
  }

  // ----- what that means for the items -----

  lemma StepIsRecorded(limits: Limits, s: State, a: Action, item: Item)
    requires Enabled(limits, s, a) && a != Clear
    ensures var s' := Next(limits, s, a);
            && multiset(s'.pushed)[item] == multiset(s.pushed)[item] + One(Succeeds(limits, s, a), Pushing(item))
            && |s'.popped| == |s.popped| + One(Succeeds(limits, s, a), Popping)
  {
  }

  /** Without Clear, `pushed` is what successful calls of Push were given, and `popped` has
      one item for each successful call of Pop. */
  lemma {:induction false} SuccessIsRecorded(limits: Limits, threads: nat, actions: seq<Action>, item: Item)
    requires IsRun(limits, Initial(threads), actions) && Clear !in actions
    ensures var s := After(limits, Initial(threads), actions);
            && TimesSucceeded(limits, Initial(threads), actions, Pushing(item)) == multiset(s.pushed)[item]
            && TimesSucceeded(limits, Initial(threads), actions, Popping) == |s.popped|
  {
    hide Enabled, Next, Succeeds, One;
    if actions != [] {
      var before := actions[..|actions| - 1];
      SuccessIsRecorded(limits, threads, before, item);
      StepIsRecorded(limits, After(limits, Initial(threads), before), actions[|actions| - 1], item);
    }
  }

  /** Every item given to Push is in the queue's history, was refused by an abort, or is
      still in the hands of a thread, as often as it was given; nothing gets in otherwise. */
  lemma ItemsAccountedFor(limits: Limits, threads: nat, actions: seq<Action>, item: Item)
    requires IsRun(limits, Initial(threads), actions) && Clear !in actions
    ensures var s := After(limits, Initial(threads), actions);
            TimesBegun(actions, Pushing(item)) ==
            multiset(s.pushed)[item] + TimesAborted(limits, Initial(threads), actions, Pushing(item)) +
            InProgress(s.threads, Pushing(item))
  {
    hide IsRun, After, Enabled, TimesBegun, TimesSucceeded, TimesAborted, InProgress;
    CallsConserved(limits, threads, actions, Pushing(item));
    SuccessIsRecorded(limits, threads, actions, item);
  }

  /** Every call of Pop has taken an item, was told to abort, or goes on. */
  lemma PopsAccountedFor(limits: Limits, threads: nat, actions: seq<Action>)
    requires IsRun(limits, Initial(threads), actions) && Clear !in actions
    ensures var s := After(limits, Initial(threads), actions);
            TimesBegun(actions, Popping) ==
            |s.popped| + TimesAborted(limits, Initial(threads), actions, Popping) + InProgress(s.threads, Popping)
  {
    hide IsRun, After, Enabled, TimesBegun, TimesSucceeded, TimesAborted, InProgress;
    CallsConserved(limits, threads, actions, Popping);
    SuccessIsRecorded(limits, threads, actions, Item(0, 0));
  }
}
