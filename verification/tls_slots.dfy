/** Slots and per-thread tables of ThreadLocalStorage, as the threads see them:
    slot numbers come from one atomic counter, every thread has its own table of
    values, and a table is born in two phases (a zeroed stack vector that serves
    re-entrant calls, then a heap copy of it). */
module TlsSlots {

  const SLOT_COUNT := 256

  /** Pointers; NULL is 0. */
  type Pointer = nat
  const NULL: Pointer := 0

  type Vector = v: seq<Pointer> | |v| == SLOT_COUNT witness seq(SLOT_COUNT, _ => NULL)

  function Zeros(): Vector {
    seq(SLOT_COUNT, _ => NULL)
  }

  /** `onStack`: the allocation of the heap vector has not returned yet. */
  datatype Table = Table(onStack: bool, values: Vector)

  datatype State = State(lastUsed: nat, destructors: Vector, tables: map<nat, Table>)

  function InitialState(): State {
    State(0, Zeros(), map[])
  }

  datatype Action =
    | Begin(t: nat)                                        // lines 102-105
    | End(t: nat)                                          // lines 108-110
    | Issue(t: nat)                                        // line 212
    | Register(t: nat, slot: nat, destructor: Pointer)     // line 217
    | Unregister(t: nat, slot: nat)                        // line 226
    | Get(t: nat, slot: nat)                               // line 239
    | Set(t: nat, slot: nat, value: Pointer)               // line 250
    | Exit(t: nat)                                         // line 169

  predicate SlotOk(slot: nat) {
    0 < slot < SLOT_COUNT
  }

  /** A slot number that Initialize has handed out: callers know no others. */
  predicate InUse(lastUsed: nat, slot: nat) {
    0 < slot <= lastUsed < SLOT_COUNT
  }

  /** Issue past slot 255 ends the process (CHECK_LT), so it is no step. */
  predicate Enabled(s: State, a: Action) {
    match a
    case Begin(t) => t !in s.tables
    case End(t) => t in s.tables && s.tables[t].onStack
    case Issue(t) => t in s.tables && s.lastUsed + 1 < SLOT_COUNT
    case Register(t, slot, _) => InUse(s.lastUsed, slot)
    case Unregister(t, slot) => InUse(s.lastUsed, slot)
    case Get(t, slot) => t in s.tables && InUse(s.lastUsed, slot)
    case Set(t, slot, _) => t in s.tables && InUse(s.lastUsed, slot)
    case Exit(t) => t in s.tables && !s.tables[t].onStack
  }

  function Stored(s: State, t: nat, slot: nat, value: Pointer): State
    requires t in s.tables && SlotOk(slot)
  {
    s.(tables := s.tables[t := s.tables[t].(values := s.tables[t].values[slot := value])])
  }

  function Next(s: State, a: Action): State
    requires Enabled(s, a)
  {
    match a
    case Begin(t) => s.(tables := s.tables[t := Table(true, Zeros())])
    case End(t) => s.(tables := s.tables[t := Table(false, s.tables[t].values)])
    case Issue(t) => s.(lastUsed := s.lastUsed + 1)
    case Register(_, slot, destructor) => s.(destructors := s.destructors[slot := destructor])
    case Unregister(_, slot) => s.(destructors := s.destructors[slot := NULL])
    case Get(_, _) => s
    case Set(t, slot, value) => Stored(s, t, slot, value)
    case Exit(t) => State(s.lastUsed, s.destructors, s.tables - {t})
  }

  predicate IsRun(s: State, actions: seq<Action>)
    decreases |actions|, 0
  {
    actions == [] ||
    (IsRun(s, actions[..|actions| - 1]) &&
     Enabled(After(s, actions[..|actions| - 1]), actions[|actions| - 1]))
  }

  function After(s: State, actions: seq<Action>): State
    requires IsRun(s, actions)
    decreases |actions|, 1
  {
    if actions == [] then s
    else Next(After(s, actions[..|actions| - 1]), actions[|actions| - 1])
  }

  /** These actions can be taken from `s`, and they lead to `s'`. */
  ghost predicate Leads(s: State, actions: seq<Action>, s': State) {
    IsRun(s, actions) && After(s, actions) == s'
  }

  lemma Extend(s: State, actions: seq<Action>, a: Action)
    requires IsRun(s, actions) && Enabled(After(s, actions), a)
    ensures IsRun(s, actions + [a]) && After(s, actions + [a]) == Next(After(s, actions), a)
  {
    assert (actions + [a])[..|actions|] == actions;
  }

  /** Runs compose. */
  lemma {:induction false} Join(s: State, first: seq<Action>, more: seq<Action>)
    requires IsRun(s, first) && IsRun(After(s, first), more)
    ensures IsRun(s, first + more) && After(s, first + more) == After(After(s, first), more)
  {
    if more == [] {
      assert first + more == first;
    } else {
      var n := |more| - 1;
      Join(s, first, more[..n]);
      assert first + more == (first + more[..n]) + [more[n]];
      Extend(s, first + more[..n], more[n]);
    }
  }

  // ----- values: the history decides -----

  /** What thread `t` last stored in `slot` since it last exited; nothing another
      thread does, and not the birth of the table either, matters. */
  function LastSet(actions: seq<Action>, t: nat, slot: nat): Pointer {
    if actions == [] then NULL
    else
      var before := actions[..|actions| - 1];
      match actions[|actions| - 1]
      case Set(u, other, value) => if u == t && other == slot then value else LastSet(before, t, slot)
      case Exit(u) => if u == t then NULL else LastSet(before, t, slot)
      case _ => LastSet(before, t, slot)
  }

  /** In every interleaving a table holds, in each slot, what its own thread last
      stored there, and NULL if nothing; values stored while the heap vector was
      being allocated survive the swap; a thread without a table has stored nothing. */
  lemma {:induction false} TablesHoldLastSet(actions: seq<Action>, t: nat, slot: nat)
    requires IsRun(InitialState(), actions) && SlotOk(slot)
    ensures var s := After(InitialState(), actions);
            LastSet(actions, t, slot) == if t in s.tables then s.tables[t].values[slot] else NULL
  {
    if actions != [] {
      TablesHoldLastSet(actions[..|actions| - 1], t, slot);
    }
  }

  // ----- destructors: likewise -----

  function LastRegistered(actions: seq<Action>, slot: nat): Pointer {
    if actions == [] then NULL
    else
      var before := actions[..|actions| - 1];
      match actions[|actions| - 1]
      case Register(_, other, destructor) => if other == slot then destructor else LastRegistered(before, slot)
      case Unregister(_, other) => if other == slot then NULL else LastRegistered(before, slot)
      case _ => LastRegistered(before, slot)
  }

  lemma {:induction false} RegistryHoldsLastRegistered(actions: seq<Action>, slot: nat)
    requires IsRun(InitialState(), actions) && SlotOk(slot)
    ensures After(InitialState(), actions).destructors[slot] == LastRegistered(actions, slot)
  {
    if actions != [] {
      RegistryHoldsLastRegistered(actions[..|actions| - 1], slot);
    }
  }

  // ----- slot numbers -----

  /** The slot number each Issue returned, in order. */
  function Issued(s: State, actions: seq<Action>): seq<nat>
    requires IsRun(s, actions)
  {
    if actions == [] then []
    else
      var before := actions[..|actions| - 1];
      if actions[|actions| - 1].Issue? then Issued(s, before) + [After(s, actions).lastUsed]
      else Issued(s, before)
  }

  /** Issued slots are 1, 2, 3, ...: distinct, never 0, below 256, and a freed
      number is never issued again. */
  lemma {:induction false} SlotsAreNeverReissued(actions: seq<Action>)
    requires IsRun(InitialState(), actions)
    ensures var issued := Issued(InitialState(), actions);
            && |issued| == After(InitialState(), actions).lastUsed < SLOT_COUNT
            && forall i :: 0 <= i < |issued| ==> issued[i] == i + 1
  {
    if actions != [] {
      SlotsAreNeverReissued(actions[..|actions| - 1]);
    }
  }

  lemma IssuedSlotsDiffer(actions: seq<Action>, i: nat, j: nat)
    requires IsRun(InitialState(), actions) && i < j < |Issued(InitialState(), actions)|
    ensures Issued(InitialState(), actions)[i] != Issued(InitialState(), actions)[j]
    ensures SlotOk(Issued(InitialState(), actions)[i])
  {
    SlotsAreNeverReissued(actions);
  }

  /** No table and no destructor entry is touched at a number not yet issued. */
  predicate Untouched(s: State) {
    && (forall slot :: s.lastUsed < slot < SLOT_COUNT ==> s.destructors[slot] == NULL)
    && (forall t, slot :: t in s.tables && s.lastUsed < slot < SLOT_COUNT ==> s.tables[t].values[slot] == NULL)
  }

  lemma UntouchedKept(s: State, a: Action)
    requires Untouched(s) && Enabled(s, a)
    ensures Untouched(Next(s, a))
  {
  }

  lemma {:induction false} UnissuedIsUntouched(actions: seq<Action>)
    requires IsRun(InitialState(), actions)
    ensures Untouched(After(InitialState(), actions))
  {
    hide Untouched, Enabled, Next;
    if actions == [] {
      InitialIsUntouched();
    } else {
      var before := actions[..|actions| - 1];
      UnissuedIsUntouched(before);
      UntouchedKept(After(InitialState(), before), actions[|actions| - 1]);
    }
  }

  lemma InitialIsUntouched()
    ensures Untouched(InitialState())
  {
  }

  /** The state after an Issue that follows the run `first`. */
  function AfterIssue(first: seq<Action>, t: nat): State
    requires IsRun(InitialState(), first) && Enabled(After(InitialState(), first), Issue(t))
  {
    Next(After(InitialState(), first), Issue(t))
  }

  predicate ReadsNull(s: State, u: nat, slot: nat)
    requires SlotOk(slot)
  {
    u in s.tables ==> s.tables[u].values[slot] == NULL
  }

  lemma ReadsNullKept(s: State, a: Action, u: nat, slot: nat)
    requires SlotOk(slot) && Enabled(s, a) && ReadsNull(s, u, slot)
    requires a.Set? && a.t == u ==> a.slot != slot
    ensures ReadsNull(Next(s, a), u, slot)
  {
  }

  lemma JustIssued(s: State, t: nat, u: nat)
    requires Untouched(s) && Enabled(s, Issue(t))
    ensures SlotOk(Next(s, Issue(t)).lastUsed) && ReadsNull(Next(s, Issue(t)), u, Next(s, Issue(t)).lastUsed)
  {
  }

  /** A slot that was just issued reads NULL in every thread, because nobody can have
      used its number before; and it goes on doing so in each thread, through any run,
      until that thread sets it. */
  lemma {:induction false} FreshSlotReadsNull(first: seq<Action>, t: nat, more: seq<Action>, u: nat)
    requires IsRun(InitialState(), first) && Enabled(After(InitialState(), first), Issue(t))
    requires IsRun(AfterIssue(first, t), more)
    requires forall i :: 0 <= i < |more| && more[i].Set? && more[i].t == u ==>
               more[i].slot != AfterIssue(first, t).lastUsed
    ensures SlotOk(AfterIssue(first, t).lastUsed)
    ensures ReadsNull(After(AfterIssue(first, t), more), u, AfterIssue(first, t).lastUsed)
    decreases |more|
  {
    hide Next, Enabled, ReadsNull, Untouched, SlotOk;
    if more == [] {
      UnissuedIsUntouched(first);
      JustIssued(After(InitialState(), first), t, u);
    } else {
      var n := |more| - 1;
      assert forall i :: 0 <= i < n ==> more[..n][i] == more[i];
      FreshSlotReadsNull(first, t, more[..n], u);
      ReadsNullKept(After(AfterIssue(first, t), more[..n]), more[n], u, AfterIssue(first, t).lastUsed);
    }
  }
}

/** The same component as code: one object owns the native slot of every thread,
    the counter and the destructor array, and its methods follow
    thread_local_storage.cc line by line.  The allocator is an oracle: while
    `new void*[256]` runs it may make any calls on the same thread. */
module TlsStorage {
  import opened TlsSlots

  /** A call the allocator makes while the heap vector is being allocated. */
  datatype InnerCall =
    | InnerInitialize(destructor: Pointer)
    | InnerFree(slot: nat)
    | InnerGet(slot: nat)
    | InnerSet(slot: nat, value: Pointer)

  /** The allocator, too, uses only slots that were handed out. */
  predicate InnerOk(call: InnerCall, lastUsed: nat) {
    match call
    case InnerInitialize(_) => true
    case InnerFree(slot) => InUse(lastUsed, slot)
    case InnerGet(slot) => InUse(lastUsed, slot)
    case InnerSet(slot, _) => InUse(lastUsed, slot)
  }

  /** How many slots these calls take. */
  function Takes(calls: seq<InnerCall>): nat {
    if calls == [] then 0
    else Takes(calls[..|calls| - 1]) + if calls[|calls| - 1].InnerInitialize? then 1 else 0
  }

  predicate AllInnerOk(calls: seq<InnerCall>, lastUsed: nat) {
    calls == [] || (
      var before := calls[..|calls| - 1];
      AllInnerOk(before, lastUsed) && InnerOk(calls[|calls| - 1], lastUsed + Takes(before))
    )
  }

  /** The actions one inner call stands for, when `lastUsed` slots are taken. */
  function InnerActions(t: nat, call: InnerCall, lastUsed: nat): seq<Action> {
    match call
    case InnerInitialize(destructor) => [Issue(t), Register(t, lastUsed + 1, destructor)]
    case InnerFree(slot) => [Unregister(t, slot)]
    case InnerGet(slot) => [Get(t, slot)]
    case InnerSet(slot, value) => [Set(t, slot, value)]
  }

  function AllInnerActions(t: nat, calls: seq<InnerCall>, lastUsed: nat): seq<Action> {
    if calls == [] then []
    else
      var before := calls[..|calls| - 1];
      AllInnerActions(t, before, lastUsed) + InnerActions(t, calls[|calls| - 1], lastUsed + Takes(before))
  }

  /** ConstructTlsVector as actions. */
  function ConstructActions(t: nat, calls: seq<InnerCall>, lastUsed: nat): seq<Action> {
    [Begin(t)] + AllInnerActions(t, calls, lastUsed) + [End(t)]
  }

  /** What a call does first: build the table, if the thread has none. */
  function Prelude(t: nat, calls: seq<InnerCall>, lastUsed: nat, hadTable: bool): seq<Action> {
    if hadTable then [] else ConstructActions(t, calls, lastUsed)
  }

  class ThreadLocalStorage {
    var lastUsed: nat
    var destructors: array<Pointer>
    // The native slot of each thread: absent is NULL.
    var native: map<nat, array<Pointer>>
    ghost var onStack: set<nat>

    ghost function Arrays(): set<object>
      reads this
    {
      set t | t in native :: native[t] as object
    }

    ghost predicate Valid()
      reads this, destructors, Arrays()
    {
      && lastUsed < SLOT_COUNT
      && destructors.Length == SLOT_COUNT
      && (forall t :: t in native ==> native[t].Length == SLOT_COUNT && native[t] != destructors)
      && (forall t, u :: t in native && u in native && t != u ==> native[t] != native[u])
    }

    /** The abstract state these fields stand for. */
    ghost function View(): State
      requires Valid()
      reads this, destructors, Arrays()
    {
      State(lastUsed, destructors[..], map t | t in native :: Table(t in onStack, native[t][..]))
    }

    constructor ()
      ensures Valid() && View() == InitialState()
      ensures fresh(destructors) && native == map[]
    {
      lastUsed := 0;
      destructors := new Pointer[SLOT_COUNT](_ => NULL);
      native := map[];
      onStack := {};
      new;
      assert destructors[..] == Zeros();
    }

    /** `tls_data[slot_] = value` on this thread's current vector. */
    method Store(t: nat, slot: nat, value: Pointer)
      requires Valid() && t in native && InUse(lastUsed, slot)
      modifies native[t]
      ensures Valid() && View() == Next(old(View()), Action.Set(t, slot, value))
    {
      ghost var before := View();
      native[t][slot] := value;
      assert native[t][..] == before.tables[t].values[slot := value];
      forall u | u in native && u != t
        ensures native[u][..] == before.tables[u].values
      {
      }
      assert View().tables == Next(before, Action.Set(t, slot, value)).tables;
    }

    /** Lines 211 to 217 of StaticSlot::Initialize. */
    method TakeSlot(t: nat, destructor: Pointer) returns (slot: nat)
      requires Valid() && t in native && lastUsed + 1 < SLOT_COUNT
      modifies this`lastUsed, destructors
      ensures Valid() && slot == lastUsed == old(lastUsed) + 1
      ensures View() == Next(Next(old(View()), Issue(t)), Register(t, slot, destructor))
    {
      ghost var before := View();
      lastUsed := lastUsed + 1;
      slot := lastUsed;
      destructors[slot] := destructor;
      assert destructors[..] == before.destructors[slot := destructor];
      assert View().tables == before.tables;
    }

    /** Free: the slot number is not reused, only its destructor is wiped. */
    method Free(t: nat, slot: nat)
      requires Valid() && InUse(lastUsed, slot)
      modifies destructors
      ensures Valid() && View() == Next(old(View()), Unregister(t, slot))
    {
      ghost var before := View();
      destructors[slot] := NULL;
      assert destructors[..] == before.destructors[slot := NULL];
      assert View().tables == before.tables;
    }

    /** One call of the allocator, on the vector that is installed right now. */
    method RunInner(t: nat, call: InnerCall)
      requires Valid() && t in native && InnerOk(call, lastUsed)
      requires lastUsed + Takes([call]) < SLOT_COUNT
      modifies this`lastUsed, destructors, native[t]
      ensures Valid() && lastUsed == old(lastUsed) + Takes([call])
      ensures Leads(old(View()), InnerActions(t, call, old(lastUsed)), View())
    {
      ghost var before := View();
      assert [call][..0] == [];
      match call
      case InnerInitialize(destructor) =>
        var slot := TakeSlot(t, destructor);
        Extend(before, [], Issue(t));
        Extend(before, [Issue(t)], Register(t, slot, destructor));
        assert [Issue(t)] + [Register(t, slot, destructor)] == InnerActions(t, call, before.lastUsed);
      case InnerFree(slot) =>
        Free(t, slot);
        Extend(before, [], Unregister(t, slot));
      case InnerGet(slot) =>
        var _ := native[t][slot];
        Extend(before, [], Action.Get(t, slot));
      case InnerSet(slot, value) =>
        Store(t, slot, value);
        Extend(before, [], Action.Set(t, slot, value));
    }

    /** SetTLSValue: the thread's native slot is given another vector. */
    method Install(t: nat, vector: array<Pointer>, ghost isStack: bool)
      requires Valid() && vector.Length == SLOT_COUNT && vector != destructors
      requires forall u :: u in native ==> native[u] != vector
      modifies this`native, this`onStack
      ensures Valid() && native == old(native)[t := vector]
      ensures onStack == if isStack then old(onStack) + {t} else old(onStack) - {t}
      ensures View() == old(View()).(tables := old(View()).tables[t := Table(isStack, vector[..])])
    {
      ghost var before := View();
      native := native[t := vector];
      onStack := if isStack then onStack + {t} else onStack - {t};
      assert View().tables == before.tables[t := Table(isStack, vector[..])];
    }

    /** Install the zeroed stack vector (lines 102 to 105). */
    method InstallStackVector(t: nat) returns (stack: array<Pointer>)
      requires Valid() && t !in native
      modifies this`native, this`onStack
      ensures Valid() && fresh(stack) && native == old(native)[t := stack] && onStack == old(onStack) + {t}
      ensures View() == Next(old(View()), Begin(t))
    {
      stack := new Pointer[SLOT_COUNT](_ => NULL);
      assert stack[..] == Zeros();
      Install(t, stack, true);
    }

    /** Copy the stack vector to the heap and install the copy (lines 108 to 110). */
    method InstallHeapVector(t: nat) returns (heap: array<Pointer>)
      requires Valid() && t in native && t in onStack
      modifies this`native, this`onStack
      ensures Valid() && fresh(heap) && native == old(native)[t := heap]
      ensures View() == Next(old(View()), End(t))
    {
      ghost var before := View();
      var stack := native[t];
      assert stack[..] == before.tables[t].values;
      heap := new Pointer[SLOT_COUNT];
      forall i | 0 <= i < SLOT_COUNT {
        heap[i] := stack[i];
      }
      assert heap[..] == before.tables[t].values;
      forall u | u in native
        ensures native[u][..] == before.tables[u].values
      {
      }
      assert View().tables == before.tables;
      Install(t, heap, false);
    }

    /** Everything the allocator does on the installed vector. */
    method RunAllocator(t: nat, calls: seq<InnerCall>)
      requires Valid() && t in native && AllInnerOk(calls, lastUsed)
      requires lastUsed + Takes(calls) < SLOT_COUNT
      modifies this`lastUsed, destructors, native[t]
      ensures Valid() && lastUsed == old(lastUsed) + Takes(calls)
      ensures Leads(old(View()), AllInnerActions(t, calls, old(lastUsed)), View())
      decreases |calls|
    {
      hide IsRun, After, Leads, Next, Enabled, InnerActions;
      if calls == [] {
        LeadsNowhere(View());
      } else {
        ghost var before, base := View(), lastUsed;
        var n := |calls| - 1;
        TakesOfLast(calls);
        RunAllocator(t, calls[..n]);
        ghost var middle := View();
        RunInner(t, calls[n]);
        ghost var more := InnerActions(t, calls[n], base + Takes(calls[..n]));
        JoinAs(before, AllInnerActions(t, calls[..n], base), middle, more,
               AllInnerActions(t, calls, base), View());
      }
    }

    /** ConstructTlsVector.  Whatever the allocator did to the stack vector is in
        the heap vector that replaces it. */
    method ConstructTlsVector(t: nat, calls: seq<InnerCall>)
      requires Valid() && t !in native && AllInnerOk(calls, lastUsed)
      requires lastUsed + Takes(calls) < SLOT_COUNT
      modifies this, destructors
      ensures Valid() && destructors == old(destructors) && t in native
      ensures forall u :: u in old(native) ==> u in native && native[u] == old(native[u])
      ensures fresh(native[t]) && lastUsed == old(lastUsed) + Takes(calls)
      ensures Leads(old(View()), ConstructActions(t, calls, old(lastUsed)), View())
    {
      ghost var before, base := View(), lastUsed;
      var _ := InstallStackVector(t);
      Extend(before, [], Begin(t));
      assert [] + [Begin(t)] == [Begin(t)];
      RunAllocator(t, calls);
      Join(before, [Begin(t)], AllInnerActions(t, calls, base));
      var _ := InstallHeapVector(t);
      Extend(before, [Begin(t)] + AllInnerActions(t, calls, base), End(t));
    }

    /** The first lines of every call: build this thread's table if it has none. */
    method EnsureVector(t: nat, calls: seq<InnerCall>)
      requires Valid() && AllInnerOk(calls, lastUsed)
      requires lastUsed + Takes(calls) < SLOT_COUNT
      modifies this, destructors
      ensures Valid() && destructors == old(destructors) && t in native
      ensures native[t] in old(Arrays()) || fresh(native[t])
      ensures old(lastUsed) <= lastUsed <= old(lastUsed) + Takes(calls)
      ensures var prelude := Prelude(t, calls, old(lastUsed), t in old(native));
              Leads(old(View()), prelude, View())
    {
      if t !in native {
        ConstructTlsVector(t, calls);
      }
    }

    /** StaticSlot::Initialize. */
    method Initialize(t: nat, destructor: Pointer, calls: seq<InnerCall>) returns (slot: nat)
      requires Valid() && AllInnerOk(calls, lastUsed)
      requires lastUsed + Takes(calls) + 1 < SLOT_COUNT
      modifies this, destructors, Arrays()
      ensures Valid() && SlotOk(slot) && slot == lastUsed
      ensures var actions := Prelude(t, calls, old(lastUsed), t in old(native)) + [Issue(t), Register(t, slot, destructor)];
              Leads(old(View()), actions, View())
    {
      ghost var before := View();
      ghost var prelude := Prelude(t, calls, lastUsed, t in native);
      EnsureVector(t, calls);
      slot := TakeSlot(t, destructor);
      ExtendTwice(before, prelude, Issue(t), Register(t, slot, destructor));
    }

    /** StaticSlot::Get.  The result is what the history says the thread stored. */
    method Get(t: nat, slot: nat, calls: seq<InnerCall>) returns (value: Pointer)
      requires Valid() && InUse(lastUsed, slot) && AllInnerOk(calls, lastUsed)
      requires lastUsed + Takes(calls) < SLOT_COUNT
      modifies this, destructors, Arrays()
      ensures Valid()
      ensures var actions := Prelude(t, calls, old(lastUsed), t in old(native)) + [Action.Get(t, slot)];
              && Leads(old(View()), actions, View())
              && t in View().tables && value == View().tables[t].values[slot]
    {
      ghost var before := View();
      ghost var prelude := Prelude(t, calls, lastUsed, t in native);
      EnsureVector(t, calls);
      value := native[t][slot];
      Extend(before, prelude, Action.Get(t, slot));
    }

    /** StaticSlot::Set. */
    method Set(t: nat, slot: nat, value: Pointer, calls: seq<InnerCall>)
      requires Valid() && InUse(lastUsed, slot) && AllInnerOk(calls, lastUsed)
      requires lastUsed + Takes(calls) < SLOT_COUNT
      modifies this, destructors, Arrays()
      ensures Valid()
      ensures var actions := Prelude(t, calls, old(lastUsed), t in old(native)) + [Action.Set(t, slot, value)];
              Leads(old(View()), actions, View())
    {
      ghost var before := View();
      ghost var prelude := Prelude(t, calls, lastUsed, t in native);
      EnsureVector(t, calls);
      Store(t, slot, value);
      Extend(before, prelude, Action.Set(t, slot, value));
    }
  }

  lemma TakesOfLast(calls: seq<InnerCall>)
    requires calls != []
    ensures Takes(calls) == Takes(calls[..|calls| - 1]) + Takes([calls[|calls| - 1]])
  {
    assert [calls[|calls| - 1]][..0] == [];
  }

  lemma LeadsNowhere(s: State)
    ensures Leads(s, [], s)
  {
  }

  lemma JoinAs(s: State, first: seq<Action>, middle: State, more: seq<Action>, all: seq<Action>, s': State)
    requires Leads(s, first, middle) && Leads(middle, more, s') && all == first + more
    ensures Leads(s, all, s')
  {
    Join(s, first, more);
  }

  lemma ExtendTwice(s: State, actions: seq<Action>, a: Action, b: Action)
    requires IsRun(s, actions) && Enabled(After(s, actions), a)
    requires Enabled(Next(After(s, actions), a), b)
    ensures IsRun(s, actions + [a, b])
    ensures After(s, actions + [a, b]) == Next(Next(After(s, actions), a), b)
  {
    Extend(s, actions, a);
    Extend(s, actions + [a], b);
    assert actions + [a, b] == actions + [a] + [b];
  }
}
