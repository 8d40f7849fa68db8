/** The class of data_queue.h, as one thread runs it.  `total_size_` is a uint32
    and wraps.  What other threads do while this one sleeps in `cond_.wait`, and
    what `abort_func` answers, come from outside as a list of turns. */
module DataQueueClass {
  import opened DataQueueMachine

  /** Another thread's completed call.  It obeys the same rules: a Push finds room
      or has no effect yet, a Pop finds an item or has no effect yet. */
  datatype OtherCall = OtherPush(item: Item) | OtherPop

  /** One pass of a wait loop: the answer of abort_func, and, if that was false,
      the calls others complete before this thread runs again. */
  datatype Turn = Turn(abort: bool, others: seq<OtherCall>)

  datatype Outcome =
    | Done(notify: bool)  // returned true; `notify`: notify_all was called
    | Aborted             // returned false
    | StillAsleep         // the turns ran out while waiting

  const MAX_SUPPORTED_SIZE := 0x8000_0000

  predicate ItemOk(item: Item) {
    0 <= item.len <= INT32_MAX
  }

  predicate AllItemsOk(items: seq<Item>) {
    forall i :: 0 <= i < |items| ==> ItemOk(items[i])
  }

  predicate TurnOk(turn: Turn) {
    forall i :: 0 <= i < |turn.others| && turn.others[i].OtherPush? ==> ItemOk(turn.others[i].item)
  }

  function OneCall(maxSize: nat, items: seq<Item>, call: OtherCall): seq<Item> {
    match call
    case OtherPush(item) => if SumLen(items) < maxSize then items + [item] else items
    case OtherPop => if items == [] then items else items[1..]
  }

  function Calls(maxSize: nat, items: seq<Item>, calls: seq<OtherCall>): seq<Item> {
    if calls == [] then items
    else OneCall(maxSize, Calls(maxSize, items, calls[..|calls| - 1]), calls[|calls| - 1])
  }

  /** A machine state whose only thread holds the mutex. */
  function Alone(total: nat, items: seq<Item>, thread: Thread): State {
    State(total, items, HeldBy(0), [thread], [], [])
  }

  /** The queue after the first `n` sleeps. */
  function Slept(maxSize: nat, items: seq<Item>, turns: seq<Turn>, n: nat): seq<Item>
    requires n <= |turns|
  {
    if n == 0 then items
    else Calls(maxSize, Slept(maxSize, items, turns, n - 1), turns[n - 1].others)
  }

  class DataQueue {
    const maxSize: nat
    var totalSize: nat
    var queue: seq<Item>

    ghost predicate Valid()
      reads this
    {
      && 0 < maxSize <= MAX_SUPPORTED_SIZE
      && AllItemsOk(queue)
      && totalSize == SumLen(queue) < maxSize + INT32_MAX
    }

    constructor (maxSize: nat)
      requires 0 < maxSize <= MAX_SUPPORTED_SIZE
      ensures Valid() && queue == [] && this.maxSize == maxSize
    {
      this.maxSize := maxSize;
      totalSize := 0;
      queue := [];
    }

    predicate IsFull()
      reads this
    {
      totalSize >= maxSize
    }

    /** The end of Push's critical section.  It is the machine's step. */
    method Enqueue(data: Item) returns (wasEmpty: bool)
      requires Valid() && ItemOk(data) && !IsFull()
      modifies this`totalSize, this`queue
      ensures Valid()
      ensures queue == old(queue) + [data] && totalSize == old(totalSize) + data.len
      ensures wasEmpty <==> old(queue) == []
      ensures var s := Alone(old(totalSize), old(queue), PushLocked(data));
              && Enabled(Limits(maxSize, INT32_MAX), s, PushEnqueue(0))
              && Next(Limits(maxSize, INT32_MAX), s, PushEnqueue(0)) ==
                 State(totalSize, queue, Free, [if wasEmpty then PushNotifying else Idle], [data], [])
    {
      wasEmpty := queue == [];
      queue := queue + [data];
      assert queue[..|queue| - 1] == old(queue);
      totalSize := Wrap(totalSize + data.len);
    }

    /** The end of Pop's critical section. */
    method Dequeue() returns (data: Item, wasFull: bool)
      requires Valid() && queue != []
      modifies this`totalSize, this`queue
      ensures Valid()
      ensures old(queue) == [data] + queue && totalSize == old(totalSize) - data.len
      ensures wasFull <==> old(IsFull())
      ensures var s := Alone(old(totalSize), old(queue), PopLocked);
              && Enabled(Limits(maxSize, INT32_MAX), s, PopDequeue(0))
              && Next(Limits(maxSize, INT32_MAX), s, PopDequeue(0)) ==
                 State(totalSize, queue, Free, [if wasFull then PopNotifying else Idle], [], [data])
    {
      wasFull := IsFull();
      data := queue[0];
      queue := queue[1..];
      SumLenOfTail(old(queue));
      SumLenNonNegative(Limits(maxSize, INT32_MAX), queue);
      totalSize := Wrap(totalSize - data.len);
    }

    /** The calls other threads complete while this one sleeps. */
    method Sleep(turn: Turn)
      requires Valid() && TurnOk(turn)
      modifies this`totalSize, this`queue
      ensures Valid()
      ensures queue == Calls(maxSize, old(queue), turn.others)
    {
      for i := 0 to |turn.others|
        invariant Valid()
        invariant queue == Calls(maxSize, old(queue), turn.others[..i])
      {
        assert turn.others[..i + 1][..i] == turn.others[..i];
        match turn.others[i]
        case OtherPush(item) =>
          if !IsFull() {
            var _ := Enqueue(item);
          }
        case OtherPop =>
          if queue != [] {
            var _, _ := Dequeue();
          }
      }
      assert turn.others[..|turn.others|] == turn.others;
    }

    /** Push.  `n` is how often it slept; before each sleep the queue was full and
        abort_func said no, and nothing was pushed while the queue was full. */
    method Push(data: Item, turns: seq<Turn>) returns (outcome: Outcome, n: nat)
      requires Valid() && ItemOk(data) && forall i :: 0 <= i < |turns| ==> TurnOk(turns[i])
      modifies this`totalSize, this`queue
      ensures Valid() && n <= |turns|
      ensures forall i :: 0 <= i < n ==>
        !turns[i].abort && SumLen(Slept(maxSize, old(queue), turns, i)) >= maxSize
      ensures var found := Slept(maxSize, old(queue), turns, n);
              match outcome
              case Done(notify) =>
                SumLen(found) < maxSize && queue == found + [data] && (notify <==> found == [])
              case Aborted =>
                SumLen(found) >= maxSize && queue == found && n < |turns| && turns[n].abort
              case StillAsleep =>
                SumLen(found) >= maxSize && queue == found && n == |turns|
    {
      hide Calls, SumLen, Enqueued, Alone, AllItemsOk, TurnOk;
      n := 0;
      while IsFull()
        invariant Valid() && n <= |turns|
        invariant queue == Slept(maxSize, old(queue), turns, n)
        invariant forall i :: 0 <= i < n ==>
          !turns[i].abort && SumLen(Slept(maxSize, old(queue), turns, i)) >= maxSize
        decreases |turns| - n
      {
        if n == |turns| {
          return StillAsleep, n;
        }
        if turns[n].abort {
          return Aborted, n;
        }
        Sleep(turns[n]);
        n := n + 1;
      }
      var wasEmpty := Enqueue(data);
      outcome := Done(wasEmpty);
    }

    /** Pop's wait loop; `ready` says that it left the loop with an item there. */
    method AwaitItem(turns: seq<Turn>) returns (ready: bool, n: nat)
      requires Valid() && forall i :: 0 <= i < |turns| ==> TurnOk(turns[i])
      modifies this`totalSize, this`queue
      ensures Valid() && n <= |turns|
      ensures forall i :: 0 <= i < n ==>
        !turns[i].abort && Slept(maxSize, old(queue), turns, i) == []
      ensures queue == Slept(maxSize, old(queue), turns, n)
      ensures ready <==> queue != []
      ensures !ready ==> n == |turns| || turns[n].abort
    {
      n, ready := 0, true;
      while queue == []
        invariant Valid() && n <= |turns|
        invariant queue == Slept(maxSize, old(queue), turns, n)
        invariant forall i :: 0 <= i < n ==>
          !turns[i].abort && Slept(maxSize, old(queue), turns, i) == []
        decreases |turns| - n
      {
        if n == |turns| || turns[n].abort {
          return false, n;
        }
        Sleep(turns[n]);
        n := n + 1;
      }
    }

    /** Pop.  It slept `n` times, always finding the queue empty and abort_func
        false; `data` is the front of the queue it found in the end. */
    method Pop(turns: seq<Turn>) returns (outcome: Outcome, data: seq<Item>, n: nat)
      requires Valid() && forall i :: 0 <= i < |turns| ==> TurnOk(turns[i])
      modifies this`totalSize, this`queue
      ensures Valid() && n <= |turns|
      ensures forall i :: 0 <= i < n ==>
        !turns[i].abort && Slept(maxSize, old(queue), turns, i) == []
      ensures Slept(maxSize, old(queue), turns, n) == data + queue
      ensures outcome.Done? ==> |data| == 1 && (outcome.notify <==> totalSize + data[0].len >= maxSize)
      ensures !outcome.Done? ==> data == [] && queue == []
      ensures outcome.Aborted? ==> n < |turns| && turns[n].abort
      ensures outcome.StillAsleep? ==> n == |turns|
    {
      var ready;
      ready, n := AwaitItem(turns);
      data := [];
      if !ready {
        outcome := if n == |turns| then StillAsleep else Aborted;
        return;
      }
      var front, wasFull := Dequeue();
      data := [front];
      outcome := Done(wasFull);
    }

    /** Clear deletes every queued item once, in order, and leaves total_size_ 0. */
    method Clear() returns (deleted: seq<Item>)
      requires Valid()
      modifies this`totalSize, this`queue
      ensures Valid() && queue == [] && totalSize == 0 && deleted == old(queue)
    {
      deleted := [];
      while queue != []
        invariant Valid() && deleted + queue == old(queue)
        decreases |queue|
      {
        var data, _ := Dequeue();
        deleted := deleted + [data];
      }
    }
  }
}
