/** OnThreadExitInternal: the destructor scans of an exiting thread.  Destructors
    may store anything into the thread's vector, and other threads may change the
    registry at any time. */
module TlsExit {
  import opened TlsSlots

  // kMaxDestructorIterations
  const MAX_SCANS := SLOT_COUNT

  /** Everything outside the scanning thread, by the number of the step at which
      it is looked at: the two shared reads, and what a destructor leaves in the
      vector it was given (with its own slot already cleared). */
  datatype World = World(
    lastUsed: nat -> nat,
    destructor: (nat, nat) -> Pointer,
    effect: (nat, nat, Pointer, Vector) -> Vector)

  /** CHECK_LT in Initialize keeps the counter below the number of slots. */
  ghost predicate WorldOk(w: World) {
    forall step :: w.lastUsed(step) < SLOT_COUNT
  }

  datatype Call = Call(slot: nat, value: Pointer, destructor: Pointer)

  /** One scan from `slot` down to 1: the vector it leaves and the calls it makes. */
  function Scan(w: World, step: nat, slot: nat, v: Vector): (Vector, seq<Call>)
    requires slot < SLOT_COUNT
    decreases slot
  {
    if slot == 0 then (v, [])
    else
      var value, destructor := v[slot], w.destructor(step, slot);
      if value == NULL || destructor == NULL then Scan(w, step + 1, slot - 1, v)
      else
        var (v', calls) := Scan(w, step + 1, slot - 1, w.effect(step, slot, value, v[slot := NULL]));
        (v', [Call(slot, value, destructor)] + calls)
  }

  /** All scans: the vector left behind and the calls of each scan. */
  function Scans(w: World, step: nat, attempts: nat, v: Vector): (Vector, seq<seq<Call>>)
    requires attempts > 0 && WorldOk(w)
    decreases attempts
  {
    var last := w.lastUsed(step);
    var (v', calls) := Scan(w, step + 1, last, v);
    if calls == [] || attempts == 1 then (v', [calls])
    else
      var (v'', more) := Scans(w, step + 1 + last, attempts - 1, v');
      (v'', [calls] + more)
  }

  function Flatten(scans: seq<seq<Call>>): seq<Call> {
    if scans == [] then [] else scans[0] + Flatten(scans[1..])
  }

  /** The slots done so far and the slots to come make up the whole scan. */
  ghost predicate SlotsLeft(w: World, goal: (Vector, seq<Call>), step: nat, slot: nat, v: Vector, called: seq<Call>)
  {
    slot < SLOT_COUNT && goal.0 == Scan(w, step, slot, v).0 && goal.1 == called + Scan(w, step, slot, v).1
  }

  lemma SlotDone(w: World, goal: (Vector, seq<Call>), step: nat, slot: nat, v: Vector, called: seq<Call>)
    requires slot > 0 && SlotsLeft(w, goal, step, slot, v, called)
    ensures var value, destructor := v[slot], w.destructor(step, slot);
            if value == NULL || destructor == NULL then
              SlotsLeft(w, goal, step + 1, slot - 1, v, called)
            else
              SlotsLeft(w, goal, step + 1, slot - 1, w.effect(step, slot, value, v[slot := NULL]),
                        called + [Call(slot, value, destructor)])
  {
  }

  /** One pass of the inner loop, lines 144 to 161, in place. */
  method ScanOnce(w: World, step: nat, stack: array<Pointer>) returns (called: seq<Call>)
    requires WorldOk(w) && stack.Length == SLOT_COUNT
    modifies stack
    ensures stack[..] == Scan(w, step + 1, w.lastUsed(step), old(stack[..])).0
    ensures called == Scan(w, step + 1, w.lastUsed(step), old(stack[..])).1
  {
    var last := w.lastUsed(step);
    called := [];
    var now: nat := step + 1;
    var slot := last;
    ghost var goal := Scan(w, step + 1, last, stack[..]);
    while slot > 0
      invariant 0 <= slot <= last && now == step + 1 + last - slot
      invariant SlotsLeft(w, goal, now, slot, stack[..], called)
    {
      var value := stack[slot];
      var destructor := w.destructor(now, slot);
      if value != NULL && destructor != NULL {
        ghost var before := stack[..];
        stack[slot] := NULL;
        assert stack[..] == before[slot := NULL];
        var after := w.effect(now, slot, value, stack[..]);
        forall i | 0 <= i < SLOT_COUNT {
          stack[i] := after[i];
        }
        assert stack[..] == after;
        SlotDone(w, goal, now, slot, before, called);
        called := called + [Call(slot, value, destructor)];
      } else {
        SlotDone(w, goal, now, slot, stack[..], called);
      }
      now := now + 1;
      slot := slot - 1;
    }
    assert called + [] == called;
  }

  /** The outer loop, lines 134 to 166, with `attempts` scans to spend.  `log` is
      every destructor call in order; `scans` how often the vector was scanned;
      `notReached` that the NOTREACHED line was hit. */
  method ScanRepeatedly(w: World, stack: array<Pointer>, attempts: nat)
    returns (log: seq<Call>, scans: nat, notReached: bool)
    requires WorldOk(w) && stack.Length == SLOT_COUNT && attempts > 0
    modifies stack
    ensures stack[..] == Scans(w, 0, attempts, old(stack[..])).0
    ensures log == Flatten(Scans(w, 0, attempts, old(stack[..])).1)
    ensures scans == |Scans(w, 0, attempts, old(stack[..])).1| <= attempts
    ensures notReached <==> scans == attempts
  {
    var remaining := attempts;
    var step: nat := 0;
    var needToScan := true;
    log, scans, notReached := [], 0, false;
    ghost var goal := Scans(w, 0, attempts, stack[..]);
    ghost var history: seq<seq<Call>> := [];
    while needToScan
      invariant 0 <= remaining <= attempts && scans == attempts - remaining == |history|
      invariant log == Flatten(history)
      invariant needToScan ==> Remaining(w, goal, step, remaining, stack[..], history)
      invariant !needToScan ==> goal.0 == stack[..] && goal.1 == history
      invariant notReached <==> remaining == 0
      decreases remaining, needToScan
    {
      ghost var v := stack[..];
      var called := ScanOnce(w, step, stack);
      Advance(w, goal, step, remaining, v, stack[..], called, history);
      step := step + 1 + w.lastUsed(step);
      FlattenOfSnoc(history, called);
      history := history + [called];
      log := log + called;
      needToScan := called != [];
      remaining := remaining - 1;
      scans := scans + 1;
      if remaining <= 0 {
        notReached := true;
        needToScan := false;
      }
    }
  }

  /** The whole function: the vector is copied to the stack, and the copy is
      scanned until a scan calls nothing or 256 scans are spent. */
  method OnThreadExitInternal(w: World, tlsData: array<Pointer>)
    returns (stack: array<Pointer>, log: seq<Call>, scans: nat, notReached: bool)
    requires WorldOk(w) && tlsData.Length == SLOT_COUNT
    ensures fresh(stack) && stack.Length == SLOT_COUNT
    ensures stack[..] == Scans(w, 0, MAX_SCANS, tlsData[..]).0
    ensures log == Flatten(Scans(w, 0, MAX_SCANS, tlsData[..]).1)
    ensures scans == |Scans(w, 0, MAX_SCANS, tlsData[..]).1| <= 256
    ensures notReached <==> scans == 256
  {
    stack := new Pointer[SLOT_COUNT];
    forall i | 0 <= i < SLOT_COUNT {
      stack[i] := tlsData[i];
    }
    assert stack[..] == tlsData[..];
    log, scans, notReached := ScanRepeatedly(w, stack, MAX_SCANS);
  }

  /** The scans done so far and the scans to come make up the whole result. */
  ghost predicate Remaining(w: World, goal: (Vector, seq<seq<Call>>), step: nat, attempts: nat,
                            v: Vector, history: seq<seq<Call>>)
    requires WorldOk(w)
  {
    attempts > 0 && goal.0 == Scans(w, step, attempts, v).0 && goal.1 == history + Scans(w, step, attempts, v).1
  }

  lemma Advance(w: World, goal: (Vector, seq<seq<Call>>), step: nat, attempts: nat,
                v: Vector, v': Vector, calls: seq<Call>, history: seq<seq<Call>>)
    requires WorldOk(w) && Remaining(w, goal, step, attempts, v, history)
    requires v' == Scan(w, step + 1, w.lastUsed(step), v).0 && calls == Scan(w, step + 1, w.lastUsed(step), v).1
    ensures calls == [] || attempts == 1 ==> goal.0 == v' && goal.1 == history + [calls]
    ensures calls != [] && attempts > 1 ==>
      Remaining(w, goal, step + 1 + w.lastUsed(step), attempts - 1, v', history + [calls])
  {
    ScansUnfold(w, step, attempts, v, v', calls);
  }

  lemma ScansUnfold(w: World, step: nat, attempts: nat, v: Vector, v': Vector, calls: seq<Call>)
    requires attempts > 0 && WorldOk(w) && (v', calls) == Scan(w, step + 1, w.lastUsed(step), v)
    ensures calls == [] || attempts == 1 ==> Scans(w, step, attempts, v) == (v', [calls])
    ensures calls != [] && attempts > 1 ==>
      var rest := Scans(w, step + 1 + w.lastUsed(step), attempts - 1, v');
      Scans(w, step, attempts, v) == (rest.0, [calls] + rest.1)
  {
  }

  lemma {:induction false} FlattenOfSnoc(scans: seq<seq<Call>>, last: seq<Call>)
    ensures Flatten(scans + [last]) == Flatten(scans) + last
  {
    if scans == [] {
      assert Flatten([last]) == last + Flatten([]);
    } else {
      assert (scans + [last])[1..] == scans[1..] + [last];
      FlattenOfSnoc(scans[1..], last);
    }
  }

  // ----- termination and clean stop, whatever the destructors do -----

  /** At most `attempts` scans; every scan but the last called something. */
  lemma {:induction false} ScansAreBounded(w: World, step: nat, attempts: nat, v: Vector)
    requires attempts > 0 && WorldOk(w)
    ensures var scans := Scans(w, step, attempts, v).1;
            && 1 <= |scans| <= attempts
            && (forall i :: 0 <= i < |scans| - 1 ==> scans[i] != [])
            && (|scans| < attempts ==> scans[|scans| - 1] == [])
    decreases attempts
  {
    var (v', calls) := Scan(w, step + 1, w.lastUsed(step), v);
    if calls != [] && attempts > 1 {
      ScansAreBounded(w, step + 1 + w.lastUsed(step), attempts - 1, v');
    }
  }

  /** The scan from `slot` down, begun at `step` on the vector `v`, meets no slot that
      has both a value and, at the moment it is looked at, a destructor. */
  ghost predicate NothingToDo(w: World, step: nat, slot: nat, v: Vector)
    requires slot < SLOT_COUNT
  {
    forall i :: 0 < i <= slot ==> v[i] == NULL || w.destructor(step + slot - i, i) == NULL
  }

  /** A scan calls nothing exactly when it finds nothing to do, and then it changes
      nothing. */
  lemma {:induction false} IdleScanIsClean(w: World, step: nat, slot: nat, v: Vector)
    requires slot < SLOT_COUNT
    ensures Scan(w, step, slot, v).1 == [] <==> NothingToDo(w, step, slot, v)
    ensures Scan(w, step, slot, v).1 == [] ==> Scan(w, step, slot, v).0 == v
    decreases slot
  {
    if slot > 0 && (v[slot] == NULL || w.destructor(step, slot) == NULL) {
      IdleScanIsClean(w, step + 1, slot - 1, v);
      assert NothingToDo(w, step, slot, v) <==> NothingToDo(w, step + 1, slot - 1, v);
    } else if slot > 0 {
      assert step + slot - slot == step;
    }
  }

  /** The step at which the `n`-th scan reads how many slots are in use. */
  function ScanStart(w: World, step: nat, n: nat): nat
    decreases n
  {
    if n == 0 then step else ScanStart(w, step + 1 + w.lastUsed(step), n - 1)
  }

  /** The vector that the `n`-th scan begins with. */
  function VectorAt(w: World, step: nat, n: nat, v: Vector): Vector
    requires WorldOk(w)
    decreases n
  {
    if n == 0 then v
    else VectorAt(w, step + 1 + w.lastUsed(step), n - 1, Scan(w, step + 1, w.lastUsed(step), v).0)
  }

  /** What the `n`-th scan found when it looked. */
  ghost predicate FoundNothing(w: World, step: nat, n: nat, v: Vector)
    requires WorldOk(w)
  {
    var start := ScanStart(w, step, n);
    NothingToDo(w, start + 1, w.lastUsed(start), VectorAt(w, step, n, v))
  }

  /** The calls of the `n`-th scan are those of one scan from where it begins, and the
      last scan leaves the vector that all of them leave. */
  lemma {:induction false} ScanByNumber(w: World, step: nat, attempts: nat, v: Vector, n: nat)
    requires attempts > 0 && WorldOk(w) && n < |Scans(w, step, attempts, v).1|
    ensures var start, before := ScanStart(w, step, n), VectorAt(w, step, n, v);
            Scans(w, step, attempts, v).1[n] == Scan(w, start + 1, w.lastUsed(start), before).1 &&
            (n == |Scans(w, step, attempts, v).1| - 1 ==>
              Scans(w, step, attempts, v).0 == Scan(w, start + 1, w.lastUsed(start), before).0)
    decreases attempts
  {
    hide Scan;
    var last := w.lastUsed(step);
    var (v', calls) := Scan(w, step + 1, last, v);
    ScansUnfold(w, step, attempts, v, v', calls);
    if n > 0 {
      ScanByNumber(w, step + 1 + last, attempts - 1, v', n - 1);
    }
  }

  /** If the thread stops before its scans are used up, then its last scan found no
      slot with both a value and a destructor, and left the vector as it found it. */
  lemma EarlyStopIsClean(w: World, step: nat, attempts: nat, v: Vector)
    requires attempts > 0 && WorldOk(w) && |Scans(w, step, attempts, v).1| < attempts
    ensures var (left, scans) := Scans(w, step, attempts, v);
            var start := ScanStart(w, step, |scans| - 1);
            NothingToDo(w, start + 1, w.lastUsed(start), left) && left == VectorAt(w, step, |scans| - 1, v)
  {
    hide Scans, Scan, NothingToDo, ScanStart, VectorAt;
    ScansAreBounded(w, step, attempts, v);
    var n := |Scans(w, step, attempts, v).1| - 1;
    ScanByNumber(w, step, attempts, v, n);
    var start := ScanStart(w, step, n);
    IdleScanIsClean(w, start + 1, w.lastUsed(start), VectorAt(w, step, n, v));
  }

  /** NOTREACHED is hit although the last scan found nothing to do exactly when all
      scans were made and the last one called nothing. */
  lemma FalseAlarmExactlyWhen(w: World, attempts: nat, v: Vector)
    requires attempts > 0 && WorldOk(w)
    ensures var scans := Scans(w, 0, attempts, v).1;
            |scans| == attempts && FoundNothing(w, 0, attempts - 1, v) <==>
            |scans| == attempts && scans[attempts - 1] == []
  {
    hide Scans, Scan, NothingToDo, ScanStart, VectorAt;
    if |Scans(w, 0, attempts, v).1| == attempts {
      ScanByNumber(w, 0, attempts, v, attempts - 1);
      var start := ScanStart(w, 0, attempts - 1);
      IdleScanIsClean(w, start + 1, w.lastUsed(start), VectorAt(w, 0, attempts - 1, v));
    }
  }

  /** One slot whose destructor stores its value again until the scan before the last. */
  function Stubborn(attempts: nat): World {
    World((_: nat) => 1, (_: nat, _: nat) => 1,
          (step: nat, slot: nat, value: Pointer, v: Vector) =>
            if step + 3 < 2 * attempts && slot < SLOT_COUNT then v[slot := value] else v)
  }

  /** One scan of it: nothing, or one call that may store the value again. */
  lemma StubbornScan(attempts: nat, n: nat, v: Vector)
    ensures var stored := if n + 2 < attempts then v else v[1 := NULL];
            Scan(Stubborn(attempts), 2 * n + 1, 1, v) == if v[1] == NULL then (v, []) else (stored, [Call(1, v[1], 1)])
  {
    var w := Stubborn(attempts);
    var after := w.effect(2 * n + 1, 1, v[1], v[1 := NULL]);
    assert 2 * n + 1 + 3 < 2 * attempts <==> n + 2 < attempts;
    assert v[1 := NULL][1 := v[1]] == v;
    assert after == if n + 2 < attempts then v else v[1 := NULL];
    assert Scan(w, 2 * n + 1 + 1, 0, v) == (v, []);
    assert Scan(w, 2 * n + 1 + 1, 0, after) == (after, []);
    assert [Call(1, v[1], 1)] + [] == [Call(1, v[1], 1)];
  }

  lemma StubbornIsOk(attempts: nat)
    ensures WorldOk(Stubborn(attempts))
  {
  }

  lemma {:induction false} StubbornScans(attempts: nat, n: nat, v: Vector)
    requires n < attempts && (v[1] == NULL <==> n == attempts - 1)
    ensures WorldOk(Stubborn(attempts))
    ensures var scans := Scans(Stubborn(attempts), 2 * n, attempts - n, v).1;
            |scans| == attempts - n && scans[attempts - n - 1] == []
    decreases attempts - n
  {
    hide Scan, Scans, WorldOk;
    var w := Stubborn(attempts);
    StubbornIsOk(attempts);
    StubbornScan(attempts, n, v);
    var (v', calls) := Scan(w, 2 * n + 1, 1, v);
    ScansUnfold(w, 2 * n, attempts - n, v, v', calls);
    if n < attempts - 1 {
      StubbornScans(attempts, n + 1, v');
    }
  }

  /** Such a destructor hits NOTREACHED although nothing is left to do. */
  lemma FalseAlarmIsPossible(v: Vector)
    requires v[1] != NULL
    ensures WorldOk(Stubborn(MAX_SCANS))
    ensures var scans := Scans(Stubborn(MAX_SCANS), 0, MAX_SCANS, v).1;
            |scans| == MAX_SCANS && scans[MAX_SCANS - 1] == [] && FoundNothing(Stubborn(MAX_SCANS), 0, MAX_SCANS - 1, v)
  {
    hide Scans, Scan, NothingToDo, ScanStart, VectorAt;
    StubbornScans(MAX_SCANS, 0, v);
    FalseAlarmExactlyWhen(Stubborn(MAX_SCANS), MAX_SCANS, v);
  }

  // ----- quiet destructors and a stable registry -----

  /** Destructors store nothing, and nobody touches the registry. */
  ghost predicate Quiet(w: World, last: nat, registry: Vector) {
    && (forall step :: w.lastUsed(step) == last)
    && (forall step, slot :: 0 < slot <= last < SLOT_COUNT ==> w.destructor(step, slot) == registry[slot])
    && (forall step, slot, value, v :: w.effect(step, slot, value, v) == v)
  }

  predicate Doomed(v: Vector, registry: Vector, slot: nat)
    requires slot < SLOT_COUNT
  {
    v[slot] != NULL && registry[slot] != NULL
  }

  /** The vector with the doomed slots up to `slot` cleared. */
  function Cleared(v: Vector, registry: Vector, slot: nat): Vector
    requires slot < SLOT_COUNT
  {
    seq(SLOT_COUNT, i requires 0 <= i < SLOT_COUNT => if 0 < i <= slot && Doomed(v, registry, i) then NULL else v[i])
  }

  ghost predicate StrictlyDescending(calls: seq<Call>) {
    forall i, j :: 0 <= i < j < |calls| ==> calls[i].slot > calls[j].slot
  }

  /** `calls` destroys exactly the doomed slots in 1..slot, each once, from the
      highest down, with the value and destructor they had. */
  ghost predicate DestroysExactly(calls: seq<Call>, v: Vector, registry: Vector, slot: nat)
    requires slot < SLOT_COUNT
  {
    && StrictlyDescending(calls)
    && (forall i :: 0 <= i < |calls| ==>
         && 0 < calls[i].slot <= slot && Doomed(v, registry, calls[i].slot)
         && calls[i].value == v[calls[i].slot] && calls[i].destructor == registry[calls[i].slot])
    && (forall s :: 0 < s <= slot && Doomed(v, registry, s) ==>
         exists i :: 0 <= i < |calls| && calls[i].slot == s)
  }

  lemma {:induction false} QuietScan(w: World, step: nat, slot: nat, v: Vector, last: nat, registry: Vector)
    requires slot <= last < SLOT_COUNT && Quiet(w, last, registry)
    ensures DestroysExactly(Scan(w, step, slot, v).1, v, registry, slot)
    ensures Scan(w, step, slot, v).0 == Cleared(v, registry, slot)
    decreases slot
  {
    if slot == 0 {
      assert Cleared(v, registry, 0) == v;
    } else if !Doomed(v, registry, slot) {
      assert w.destructor(step, slot) == registry[slot];
      QuietScan(w, step + 1, slot - 1, v, last, registry);
      SkipHealthy(Scan(w, step + 1, slot - 1, v).1, v, registry, slot);
    } else {
      assert w.destructor(step, slot) == registry[slot];
      var v1 := v[slot := NULL];
      assert w.effect(step, slot, v[slot], v1) == v1;
      QuietScan(w, step + 1, slot - 1, v1, last, registry);
      ExtendDescending(Scan(w, step + 1, slot - 1, v1).1, v, registry, slot);
    }
  }

  lemma SkipHealthy(calls: seq<Call>, v: Vector, registry: Vector, slot: nat)
    requires 0 < slot < SLOT_COUNT && !Doomed(v, registry, slot)
    requires DestroysExactly(calls, v, registry, slot - 1)
    ensures DestroysExactly(calls, v, registry, slot)
    ensures Cleared(v, registry, slot) == Cleared(v, registry, slot - 1)
  {
  }

  lemma ExtendDescending(calls: seq<Call>, v: Vector, registry: Vector, slot: nat)
    requires 0 < slot < SLOT_COUNT && Doomed(v, registry, slot)
    requires DestroysExactly(calls, v[slot := NULL], registry, slot - 1)
    ensures DestroysExactly([Call(slot, v[slot], registry[slot])] + calls, v, registry, slot)
    ensures Cleared(v, registry, slot) == Cleared(v[slot := NULL], registry, slot - 1)
  {
    var all := [Call(slot, v[slot], registry[slot])] + calls;
    forall s | 0 < s <= slot && Doomed(v, registry, s)
      ensures exists i :: 0 <= i < |all| && all[i].slot == s
    {
      if s == slot {
        assert all[0].slot == s;
      } else {
        assert Doomed(v[slot := NULL], registry, s);
        var i :| 0 <= i < |calls| && calls[i].slot == s;
        assert all[i + 1].slot == s;
      }
    }
  }

  /** With quiet destructors and a stable registry the exit needs at most two
      scans: the first destroys every value that has a destructor exactly once, in
      descending slot order, and the second finds nothing. */
  lemma QuietExit(w: World, v: Vector, last: nat, registry: Vector)
    requires last < SLOT_COUNT && Quiet(w, last, registry)
    ensures WorldOk(w)
    ensures var (left, scans) := Scans(w, 0, MAX_SCANS, v);
            && left == Cleared(v, registry, last)
            && |scans| <= 2 && DestroysExactly(scans[0], v, registry, last)
            && Flatten(scans) == scans[0]
  {
    assert forall step :: w.lastUsed(step) == last;
    hide DestroysExactly, Cleared, Scan, Scans;
    QuietScan(w, 1, last, v, last, registry);
    var (v1, first) := Scan(w, 1, last, v);
    ScansUnfold(w, 0, MAX_SCANS, v, v1, first);
    assert Flatten([first]) == first + Flatten([]);
    if first != [] {
      SecondScanIsIdle(w, 2 + last, v, last, registry);
      ScansUnfold(w, 1 + last, MAX_SCANS - 1, v1, v1, []);
      assert ([first] + [[]])[1..] == [[]];
      assert Flatten([[]]) == [] + Flatten([]);
    }
  }

  lemma SecondScanIsIdle(w: World, step: nat, v: Vector, last: nat, registry: Vector)
    requires last < SLOT_COUNT && Quiet(w, last, registry)
    ensures var v1 := Cleared(v, registry, last);
            Scan(w, step, last, v1).0 == v1 && Scan(w, step, last, v1).1 == []
  {
    ScanOfHealthyVector(w, step, last, Cleared(v, registry, last), last, registry);
  }

  lemma {:induction false} ScanOfHealthyVector(w: World, step: nat, slot: nat, v: Vector, last: nat, registry: Vector)
    requires slot <= last < SLOT_COUNT && Quiet(w, last, registry)
    requires forall s :: 0 < s <= slot ==> !Doomed(v, registry, s)
    ensures Scan(w, step, slot, v).0 == v && Scan(w, step, slot, v).1 == []
    decreases slot
  {
    if slot > 0 {
      assert !Doomed(v, registry, slot) && w.destructor(step, slot) == registry[slot];
      ScanOfHealthyVector(w, step + 1, slot - 1, v, last, registry);
    }
  }
}
