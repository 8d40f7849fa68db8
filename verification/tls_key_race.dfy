/** The race to install g_native_tls_key (the first half of ConstructTlsVector),
    run by any number of threads.  Each load, allocation, compare-and-swap and
    free is one indivisible step; threads interleave between steps. */
module TlsKeyRace {

  type Key = nat

  /** Where a thread is in lines 62 to 91. */
  datatype Pc =
    | Start                   // about to load the global key
    | MustAlloc               // loaded the sentinel
    | GotSentinel             // AllocTLS handed out the sentinel value itself
    | HasSpare(key: Key)      // holds a second key, the sentinel-valued one not yet freed
    | BeforeCas(key: Key)
    | Lost(key: Key)          // another thread's key is installed; ours must be freed
    | MustReload
    | Done(key: Key)

  /** `obtained` and `freed` record every call this thread made to the OS. */
  datatype Thread = Thread(pc: Pc, won: bool, obtained: multiset<Key>, freed: multiset<Key>)

  /** `live` is every key the OS has handed out and not taken back; `foreign` are
      those that belong to other users of the OS interface. */
  datatype State = State(global: Key, live: set<Key>, foreign: set<Key>, threads: seq<Thread>)

  datatype Action =
    | Load(t: nat)
    | Alloc(t: nat, key: Key)
    | AllocAgain(t: nat, key: Key)
    | FreeSentinel(t: nat)
    | CompareAndSwap(t: nat)
    | FreeLost(t: nat)
    | Reload(t: nat)
    | ForeignAlloc(key: Key)
    | ForeignFree(key: Key)

  /** TLS_KEY_OUT_OF_INDEXES: 0xFFFFFFFF on Windows, 0x7FFFFFFF on POSIX. */
  predicate Initial(sentinel: Key, s: State) {
    && s.global == sentinel && s.live == s.foreign
    && forall t :: 0 <= t < |s.threads| ==> s.threads[t] == Thread(Start, false, multiset{}, multiset{})
  }

  predicate At(s: State, t: nat) {
    t < |s.threads|
  }

  /** AllocTLS returns some key that is not in use; when it fails, or hands out
      the sentinel twice, CHECK ends the process, so there is no step. */
  predicate Enabled(sentinel: Key, s: State, a: Action) {
    match a
    case Load(t) => At(s, t) && s.threads[t].pc.Start?
    case Alloc(t, key) => At(s, t) && s.threads[t].pc.MustAlloc? && key !in s.live
    case AllocAgain(t, key) => At(s, t) && s.threads[t].pc.GotSentinel? && key !in s.live && key != sentinel
    case FreeSentinel(t) => At(s, t) && s.threads[t].pc.HasSpare?
    case CompareAndSwap(t) => At(s, t) && s.threads[t].pc.BeforeCas?
    case FreeLost(t) => At(s, t) && s.threads[t].pc.Lost?
    case Reload(t) => At(s, t) && s.threads[t].pc.MustReload?
    case ForeignAlloc(key) => key !in s.live
    case ForeignFree(key) => key in s.foreign
  }

  function Moved(s: State, t: nat, thread: Thread): State
    requires At(s, t)
  {
    s.(threads := s.threads[t := thread])
  }

  function Next(sentinel: Key, s: State, a: Action): State
    requires Enabled(sentinel, s, a)
  {
    match a
    case Load(t) =>
      var th := s.threads[t];
      Moved(s, t, th.(pc := if s.global == sentinel then MustAlloc else Done(s.global)))
    case Alloc(t, key) =>
      var th := s.threads[t];
      Moved(s, t, th.(pc := if key == sentinel then GotSentinel else BeforeCas(key),
                      obtained := th.obtained + multiset{key})).(live := s.live + {key})
    case AllocAgain(t, key) =>
      var th := s.threads[t];
      Moved(s, t, th.(pc := HasSpare(key),
                      obtained := th.obtained + multiset{key})).(live := s.live + {key})
    case FreeSentinel(t) =>
      var th := s.threads[t];
      Moved(s, t, th.(pc := BeforeCas(th.pc.key),
                      freed := th.freed + multiset{sentinel})).(live := s.live - {sentinel})
    case CompareAndSwap(t) =>
      var th := s.threads[t];
      if s.global == sentinel then
        Moved(s, t, th.(pc := Done(th.pc.key), won := true)).(global := th.pc.key)
      else
        Moved(s, t, th.(pc := Lost(th.pc.key)))
    case FreeLost(t) =>
      var th := s.threads[t];
      Moved(s, t, th.(pc := MustReload,
                      freed := th.freed + multiset{th.pc.key})).(live := s.live - {th.pc.key})
    case Reload(t) =>
      var th := s.threads[t];
      Moved(s, t, th.(pc := Done(s.global)))
    case ForeignAlloc(key) => s.(live := s.live + {key}, foreign := s.foreign + {key})
    case ForeignFree(key) => s.(live := s.live - {key}, foreign := s.foreign - {key})
  }

  predicate IsRun(sentinel: Key, s: State, actions: seq<Action>)
    decreases |actions|, 0
  {
    actions == [] ||
    (IsRun(sentinel, s, actions[..|actions| - 1]) &&
     Enabled(sentinel, After(sentinel, s, actions[..|actions| - 1]), actions[|actions| - 1]))
  }

  function After(sentinel: Key, s: State, actions: seq<Action>): State
    requires IsRun(sentinel, s, actions)
    decreases |actions|, 1
  {
    if actions == [] then s
    else Next(sentinel, After(sentinel, s, actions[..|actions| - 1]), actions[|actions| - 1])
  }

  // ----- who holds which key -----

  /** Keys a thread has allocated and still has to free or install. */
  function Held(sentinel: Key, pc: Pc): set<Key> {
    match pc
    case GotSentinel => {sentinel}
    case HasSpare(key) => {sentinel, key}
    case BeforeCas(key) => {key}
    case Lost(key) => {key}
    case _ => {}
  }

  /** How many keys the threads together hold in flight. */
  function InFlight(sentinel: Key, threads: seq<Thread>): nat {
    if threads == [] then 0
    else InFlight(sentinel, threads[..|threads| - 1]) + |Held(sentinel, threads[|threads| - 1].pc)|
  }

  function Installed(sentinel: Key, s: State): set<Key> {
    if s.global == sentinel then {} else {s.global}
  }

  ghost predicate PcOk(sentinel: Key, global: Key, th: Thread) {
    match th.pc
    case HasSpare(key) => key != sentinel
    case BeforeCas(key) => key != sentinel
    case Lost(key) => key != sentinel && global != sentinel
    case MustReload => global != sentinel
    case Done(key) => key == global && global != sentinel
    case _ => true
  }

  /** A thread has freed exactly what it allocated, except what it still holds
      and the one key it installed. */
  ghost predicate Balanced(sentinel: Key, global: Key, th: Thread) {
    forall key :: th.obtained[key] ==
      th.freed[key] + (if key in Held(sentinel, th.pc) then 1 else 0) + (if th.won && key == global then 1 else 0)
  }

  ghost predicate ThreadOk(sentinel: Key, s: State, t: nat)
    requires At(s, t)
  {
    var th := s.threads[t];
    && PcOk(sentinel, s.global, th) && Balanced(sentinel, s.global, th)
    && (th.won ==> th.pc.Done?)
    && Held(sentinel, th.pc) <= s.live
    && Held(sentinel, th.pc) !! s.foreign
    && Held(sentinel, th.pc) !! Installed(sentinel, s)
  }

  ghost predicate KeysExclusive(sentinel: Key, s: State) {
    forall t, u :: 0 <= t < u < |s.threads| ==>
      Held(sentinel, s.threads[t].pc) !! Held(sentinel, s.threads[u].pc)
  }

  ghost predicate NoKeyLeaks(sentinel: Key, s: State) {
    forall key :: key in s.live ==>
      key in s.foreign || key in Installed(sentinel, s) ||
      exists t :: 0 <= t < |s.threads| && key in Held(sentinel, s.threads[t].pc)
  }

  ghost predicate OneWinner(sentinel: Key, s: State) {
    && (forall t, u :: 0 <= t < u < |s.threads| ==> !(s.threads[t].won && s.threads[u].won))
    && ((exists t :: 0 <= t < |s.threads| && s.threads[t].won) <==> s.global != sentinel)
  }

  ghost predicate Inv(sentinel: Key, s: State) {
    && (forall t: nat :: At(s, t) ==> ThreadOk(sentinel, s, t))
    && s.foreign <= s.live && Installed(sentinel, s) <= s.live && Installed(sentinel, s) !! s.foreign
    && KeysExclusive(sentinel, s)
    && NoKeyLeaks(sentinel, s)
    && OneWinner(sentinel, s)
  }

  // ----- every step keeps the invariant -----

  /** The thread that an action moves. */
  function Mover(a: Action): int {
    match a
    case ForeignAlloc(_) => -1
    case ForeignFree(_) => -1
    case _ => a.t
  }

  /** A step of one thread leaves the others alone, and what it gains in held keys
      nobody else had. */
  lemma ThreadsKept(sentinel: Key, s: State, a: Action)
    requires Inv(sentinel, s) && Enabled(sentinel, s, a)
    ensures var s' := Next(sentinel, s, a);
            |s'.threads| == |s.threads| && forall t: nat :: At(s', t) ==> ThreadOk(sentinel, s', t)
  {
    var s' := Next(sentinel, s, a);
    forall t: nat | At(s', t)
      ensures ThreadOk(sentinel, s', t)
    {
      assert ThreadOk(sentinel, s, t);
      if t == Mover(a) {
        MoverOk(sentinel, s, a);
      } else {
        BystanderOk(sentinel, s, a, t);
      }
    }
  }

  /** The keys an action hands to its thread. */
  function Gained(a: Action): set<Key> {
    match a
    case Alloc(_, key) => {key}
    case AllocAgain(_, key) => {key}
    case _ => {}
  }

  /** The mover holds nothing new but a key nobody had. */
  lemma MoverHolds(sentinel: Key, s: State, a: Action)
    requires Enabled(sentinel, s, a) && Mover(a) >= 0
    ensures Held(sentinel, Next(sentinel, s, a).threads[Mover(a)].pc)
              <= Held(sentinel, s.threads[Mover(a)].pc) + Gained(a)
    ensures Gained(a) !! s.live
  {
  }

  lemma MoverBalancedAt(sentinel: Key, s: State, a: Action, key: Key)
    requires Enabled(sentinel, s, a) && Mover(a) >= 0 && !s.threads[Mover(a)].won
    requires var th := s.threads[Mover(a)];
             PcOk(sentinel, s.global, th) &&
             th.obtained[key] == th.freed[key] + if key in Held(sentinel, th.pc) then 1 else 0
    ensures var s' := Next(sentinel, s, a);
            var th := s'.threads[Mover(a)];
            th.obtained[key] == th.freed[key] + (if key in Held(sentinel, th.pc) then 1 else 0)
                                + (if th.won && key == s'.global then 1 else 0)
  {
  }

  /** What a thread has taken minus what it has freed follows what it holds. */
  lemma MoverBalanced(sentinel: Key, s: State, a: Action)
    requires Enabled(sentinel, s, a) && Mover(a) >= 0 && ThreadOk(sentinel, s, Mover(a))
    requires !s.threads[Mover(a)].won
    ensures var s' := Next(sentinel, s, a); Balanced(sentinel, s'.global, s'.threads[Mover(a)])
  {
    var th := s.threads[Mover(a)];
    var s' := Next(sentinel, s, a);
    var moved := s'.threads[Mover(a)];
    hide Next, Enabled, Held, Installed;
    forall key
      ensures moved.obtained[key] == moved.freed[key] + (if key in Held(sentinel, moved.pc) then 1 else 0)
                                     + (if moved.won && key == s'.global then 1 else 0)
    {
      assert th.obtained[key] == th.freed[key] + if key in Held(sentinel, th.pc) then 1 else 0;
      MoverBalancedAt(sentinel, s, a, key);
    }
  }

  lemma MoverOk(sentinel: Key, s: State, a: Action)
    requires Inv(sentinel, s) && Enabled(sentinel, s, a) && Mover(a) >= 0
    ensures ThreadOk(sentinel, Next(sentinel, s, a), Mover(a))
  {
    hide NoKeyLeaks, KeysExclusive, Balanced;
    var t: nat := Mover(a);
    var s' := Next(sentinel, s, a);
    assert ThreadOk(sentinel, s, t);
    MoverHolds(sentinel, s, a);
    assert !s.threads[t].won;
    MoverBalanced(sentinel, s, a);
    assert PcOk(sentinel, s'.global, s'.threads[t]);
  }

  lemma BystanderOk(sentinel: Key, s: State, a: Action, t: nat)
    requires Inv(sentinel, s) && Enabled(sentinel, s, a) && At(s, t) && t != Mover(a)
    ensures ThreadOk(sentinel, Next(sentinel, s, a), t)
  {
    assert ThreadOk(sentinel, s, t);
    if Mover(a) >= 0 {
      var u: nat := Mover(a);
      assert ThreadOk(sentinel, s, u);
      assert Held(sentinel, s.threads[t].pc) !! Held(sentinel, s.threads[u].pc) by {
        if t < u {
        } else {
          assert Held(sentinel, s.threads[u].pc) !! Held(sentinel, s.threads[t].pc);
        }
      }
      if a.CompareAndSwap? && s.global == sentinel {
        assert !(exists w :: 0 <= w < |s.threads| && s.threads[w].won);
      }
    }
  }

  lemma ExclusionKept(sentinel: Key, s: State, a: Action)
    requires Inv(sentinel, s) && Enabled(sentinel, s, a)
    ensures KeysExclusive(sentinel, Next(sentinel, s, a))
  {
    var s' := Next(sentinel, s, a);
    forall t, u | 0 <= t < u < |s'.threads|
      ensures Held(sentinel, s'.threads[t].pc) !! Held(sentinel, s'.threads[u].pc)
    {
      assert ThreadOk(sentinel, s, t) && ThreadOk(sentinel, s, u);
      assert Held(sentinel, s.threads[t].pc) !! Held(sentinel, s.threads[u].pc);
      if Mover(a) >= 0 {
        MoverHolds(sentinel, s, a);
      }
      assert t != Mover(a) ==> s'.threads[t] == s.threads[t];
      assert u != Mover(a) ==> s'.threads[u] == s.threads[u];
    }
  }

  lemma LeaksKept(sentinel: Key, s: State, a: Action)
    requires Inv(sentinel, s) && Enabled(sentinel, s, a)
    ensures NoKeyLeaks(sentinel, Next(sentinel, s, a))
  {
    hide Balanced, KeysExclusive, OneWinner;
    var s' := Next(sentinel, s, a);
    forall key | key in s'.live
      ensures key in s'.foreign || key in Installed(sentinel, s') ||
              exists t :: 0 <= t < |s'.threads| && key in Held(sentinel, s'.threads[t].pc)
    {
      if key in s.live && key !in s.foreign && key !in Installed(sentinel, s) {
        var t :| 0 <= t < |s.threads| && key in Held(sentinel, s.threads[t].pc);
        assert t != Mover(a) ==> s'.threads[t] == s.threads[t];
        assert key in Held(sentinel, s'.threads[t].pc) || key in Installed(sentinel, s');
      } else if key !in s.live && Mover(a) >= 0 {
        assert key in Held(sentinel, s'.threads[Mover(a)].pc);
      }
    }
  }

  lemma WonChangesOnlyBySwap(sentinel: Key, s: State, a: Action)
    requires Enabled(sentinel, s, a) && !(a.CompareAndSwap? && s.global == sentinel)
    ensures var s' := Next(sentinel, s, a);
            && s'.global == s.global && |s'.threads| == |s.threads|
            && forall t :: 0 <= t < |s.threads| ==> s'.threads[t].won == s.threads[t].won
  {
  }

  lemma WinnerKept(sentinel: Key, s: State, a: Action)
    requires Inv(sentinel, s) && Enabled(sentinel, s, a)
    ensures OneWinner(sentinel, Next(sentinel, s, a))
  {
    var s' := Next(sentinel, s, a);
    if a.CompareAndSwap? && s.global == sentinel {
      assert ThreadOk(sentinel, s, a.t);
      assert s'.threads[a.t].won;
    } else {
      WonChangesOnlyBySwap(sentinel, s, a);
      if exists t :: 0 <= t < |s.threads| && s.threads[t].won {
        var t :| 0 <= t < |s.threads| && s.threads[t].won;
        assert s'.threads[t].won;
      }
    }
  }

  lemma InvKept(sentinel: Key, s: State, a: Action)
    requires Inv(sentinel, s) && Enabled(sentinel, s, a)
    ensures Inv(sentinel, Next(sentinel, s, a))
  {
    ThreadsKept(sentinel, s, a);
    ExclusionKept(sentinel, s, a);
    LeaksKept(sentinel, s, a);
    WinnerKept(sentinel, s, a);
    if Mover(a) >= 0 {
      assert ThreadOk(sentinel, s, Mover(a));
    }
  }

  lemma {:induction false} ReachableStatesAreSafe(sentinel: Key, s0: State, actions: seq<Action>)
    requires Initial(sentinel, s0) && IsRun(sentinel, s0, actions)
    ensures Inv(sentinel, After(sentinel, s0, actions))
  {
    if actions != [] {
      ReachableStatesAreSafe(sentinel, s0, actions[..|actions| - 1]);
      InvKept(sentinel, After(sentinel, s0, actions[..|actions| - 1]), actions[|actions| - 1]);
    }
  }

  // ----- what that means -----

  /** The global key leaves the sentinel at most once: after any longer run it is
      still what it was first set to. */
  lemma {:induction false} GlobalSetAtMostOnce(sentinel: Key, s0: State, first: seq<Action>, more: seq<Action>)
    requires Initial(sentinel, s0) && IsRun(sentinel, s0, first) && IsRun(sentinel, s0, first + more)
    requires After(sentinel, s0, first).global != sentinel
    ensures After(sentinel, s0, first + more).global == After(sentinel, s0, first).global
    decreases |more|
  {
    if more == [] {
      assert first + more == first;
    } else {
      assert (first + more)[..|first + more| - 1] == first + more[..|more| - 1];
      GlobalSetAtMostOnce(sentinel, s0, first, more[..|more| - 1]);
    }
  }

  /** Every thread that has finished has the same key, and that key is live and is
      the installed one.  A finished thread has freed each key it allocated exactly
      once, except that the single winner keeps the installed key. */
  lemma FinishedThreadsAgree(sentinel: Key, s0: State, actions: seq<Action>, t: nat)
    requires Initial(sentinel, s0) && IsRun(sentinel, s0, actions)
    requires var s := After(sentinel, s0, actions); At(s, t) && s.threads[t].pc.Done?
    ensures var s := After(sentinel, s0, actions);
            var th := s.threads[t];
            && th.pc.key == s.global != sentinel && s.global in s.live
            && th.obtained == th.freed + (if th.won then multiset{s.global} else multiset{})
            && exists w :: 0 <= w < |s.threads| && s.threads[w].won &&
                 forall u :: 0 <= u < |s.threads| && s.threads[u].won ==> u == w
  {
    ReachableStatesAreSafe(sentinel, s0, actions);
    var s := After(sentinel, s0, actions);
    assert ThreadOk(sentinel, s, t);
    assert s.global in Installed(sentinel, s);
    assert Held(sentinel, s.threads[t].pc) == {};
    var w :| 0 <= w < |s.threads| && s.threads[w].won;
    forall u | 0 <= u < |s.threads| && s.threads[u].won
      ensures u == w
    {
    }
  }

  /** Whenever a thread calls FreeTLS, the key is live, is not the installed one,
      is not foreign, and no other thread holds it. */
  lemma FreeIsSafe(sentinel: Key, s0: State, actions: seq<Action>, a: Action)
    requires Initial(sentinel, s0) && IsRun(sentinel, s0, actions)
    requires Enabled(sentinel, After(sentinel, s0, actions), a) && (a.FreeLost? || a.FreeSentinel?)
    ensures var s := After(sentinel, s0, actions);
            var key := if a.FreeLost? then s.threads[a.t].pc.key else sentinel;
            && key in s.live && key !in s.foreign && (s.global == sentinel || key != s.global)
            && forall u :: 0 <= u < |s.threads| && u != a.t ==> key !in Held(sentinel, s.threads[u].pc)
  {
    ReachableStatesAreSafe(sentinel, s0, actions);
    var s := After(sentinel, s0, actions);
    assert ThreadOk(sentinel, s, a.t);
    var key := if a.FreeLost? then s.threads[a.t].pc.key else sentinel;
    assert key in Held(sentinel, s.threads[a.t].pc);
    forall u | 0 <= u < |s.threads| && u != a.t
      ensures key !in Held(sentinel, s.threads[u].pc)
    {
      if u < a.t {
        assert Held(sentinel, s.threads[u].pc) !! Held(sentinel, s.threads[a.t].pc);
      } else {
        assert Held(sentinel, s.threads[a.t].pc) !! Held(sentinel, s.threads[u].pc);
      }
    }
  }

  lemma InFlightOfPrefix(sentinel: Key, threads: seq<Thread>, n: nat)
    requires 0 < n <= |threads|
    ensures InFlight(sentinel, threads[..n]) == InFlight(sentinel, threads[..n - 1]) + |Held(sentinel, threads[n - 1].pc)|
  {
    assert threads[..n][..n - 1] == threads[..n - 1];
  }

  /** The keys that the threads hold. */
  function AllHeld(sentinel: Key, threads: seq<Thread>): set<Key> {
    if threads == [] then {}
    else AllHeld(sentinel, threads[..|threads| - 1]) + Held(sentinel, threads[|threads| - 1].pc)
  }

  lemma {:induction false} AllHeldHas(sentinel: Key, threads: seq<Thread>, n: nat, key: Key)
    requires n <= |threads|
    ensures key in AllHeld(sentinel, threads[..n]) <==> exists t :: 0 <= t < n && key in Held(sentinel, threads[t].pc)
    decreases n
  {
    hide Held;
    if n > 0 {
      assert threads[..n][..n - 1] == threads[..n - 1];
      AllHeldHas(sentinel, threads, n - 1, key);
      if t :| 0 <= t < n && key in Held(sentinel, threads[t].pc) {
        assert t == n - 1 || key in AllHeld(sentinel, threads[..n - 1]);
      }
      if key in Held(sentinel, threads[n - 1].pc) {
        assert 0 <= n - 1 < n;
      }
    }
  }

  /** The keys held by the first `n` threads, counted. */
  lemma {:induction false} HeldCount(sentinel: Key, s: State, n: nat)
    requires n <= |s.threads| && KeysExclusive(sentinel, s)
    ensures |AllHeld(sentinel, s.threads[..n])| == InFlight(sentinel, s.threads[..n])
    decreases n
  {
    hide Held;
    if n > 0 {
      var last := Held(sentinel, s.threads[n - 1].pc);
      assert s.threads[..n][..n - 1] == s.threads[..n - 1];
      HeldCount(sentinel, s, n - 1);
      InFlightOfPrefix(sentinel, s.threads, n);
      forall key | key in AllHeld(sentinel, s.threads[..n - 1])
        ensures key !in last
      {
        AllHeldHas(sentinel, s.threads, n - 1, key);
      }
    }
  }

  lemma HeldKeyFacts(sentinel: Key, s: State, key: Key)
    requires Inv(sentinel, s)
    ensures key in AllHeld(sentinel, s.threads) ==>
              key in s.live && key !in s.foreign && key !in Installed(sentinel, s)
    ensures key in s.live ==>
              key in s.foreign || key in Installed(sentinel, s) || key in AllHeld(sentinel, s.threads)
  {
    hide Held, Balanced, PcOk, OneWinner, KeysExclusive, Installed;
    assert s.threads[..|s.threads|] == s.threads;
    AllHeldHas(sentinel, s.threads, |s.threads|, key);
    if t :| 0 <= t < |s.threads| && key in Held(sentinel, s.threads[t].pc) {
      assert ThreadOk(sentinel, s, t);
    }
  }

  /** Three disjoint sets of keys make up the live ones. */
  lemma LiveKeysSplit(sentinel: Key, s: State)
    requires Inv(sentinel, s)
    ensures s.live == s.foreign + Installed(sentinel, s) + AllHeld(sentinel, s.threads)
    ensures |s.live| == |s.foreign| + |Installed(sentinel, s)| + |AllHeld(sentinel, s.threads)|
  {
    var foreign, installed, held := s.foreign, Installed(sentinel, s), AllHeld(sentinel, s.threads);
    assert foreign !! installed && foreign <= s.live && installed <= s.live;
    hide *;
    forall key
      ensures key in held ==> key in s.live && key !in foreign && key !in installed
      ensures key in s.live ==> key in foreign || key in installed || key in held
    {
      HeldKeyFacts(sentinel, s, key);
    }
    assert s.live == foreign + installed + held;
    assert foreign !! held && installed !! held;
    assert |foreign + installed + held| == |foreign + installed| + |held|;
  }

  lemma KeysCounted(sentinel: Key, s: State)
    requires Inv(sentinel, s)
    ensures |s.live| == |s.foreign| + (if s.global == sentinel then 0 else 1) + InFlight(sentinel, s.threads)
  {
    hide Held, AllHeld, InFlight, PcOk, Balanced, NoKeyLeaks, OneWinner;
    LiveKeysSplit(sentinel, s);
    HeldCount(sentinel, s, |s.threads|);
    assert s.threads[..|s.threads|] == s.threads;
  }

  /** Conservation: the live native keys that are ours are the installed one, if
      any, and those in flight. */
  lemma LiveKeysAreCounted(sentinel: Key, s0: State, actions: seq<Action>)
    requires Initial(sentinel, s0) && IsRun(sentinel, s0, actions)
    ensures var s := After(sentinel, s0, actions);
            |s.live| == |s.foreign| + (if s.global == sentinel then 0 else 1) + InFlight(sentinel, s.threads)
  {
    hide *;
    ReachableStatesAreSafe(sentinel, s0, actions);
    KeysCounted(sentinel, After(sentinel, s0, actions));
  }
}
