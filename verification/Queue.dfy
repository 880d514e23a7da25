/** The bounded queue with drop policies (common/bvq_queue.c): a ring that is
    filled forwards from `queuePos`, proved against a sequence. What its
    threads do to each other is the subject of QueueThreads.dfy; here one call
    is one step. */
module Queue {
  import opened Counting
  import opened Types

  datatype Mode = DropOldest | DropCurrent | AvoidDrop

  datatype Status = Ok | OutOfMemory | TimeOut | InvalidParameter | IllegalOperation

  // ---- What the operations do to the queued items, oldest first ----

  /** `removed` left the queue to make room, `refused` was never queued; both
      are dropped, and freed if there is a callback. */
  datatype Enqueued<T> = Enqueued(items: seq<T>, status: Status, removed: seq<T>, refused: seq<T>)

  function EnqueueItems<T>(items: seq<T>, length: nat, mode: Mode, x: T): (r: Enqueued<T>)
    requires |items| <= length && 0 < length
    ensures |r.items| <= length
  {
    if |items| < length then Enqueued(items + [x], Ok, [], [])
    else
      match mode
      case DropOldest => Enqueued(items[1..] + [x], Ok, items[..1], [])
      case DropCurrent => Enqueued(items, Ok, [], [x])
      case AvoidDrop => Enqueued(items, OutOfMemory, [], [])
  }

  // ---- The ring ----

  /** Where item i is (0 the oldest). */
  function At(length: nat, pos: nat, count: nat, i: nat): (k: nat)
    requires pos < length && i < count <= length
    ensures k < length
  {
    var k := pos + 1 + length - count + i;
    if k >= length then k - length else k
  }

  function View<T>(queue: seq<T>, pos: nat, count: nat): (items: seq<T>)
    requires pos < |queue| && count <= |queue|
    ensures |items| == count && forall i :: 0 <= i < count ==> items[i] == queue[At(|queue|, pos, count, i)]
  {
    seq(count, i requires 0 <= i < count => queue[At(|queue|, pos, count, i)])
  }

  function AsInt32(x: int): int {
    var y := x % UINT32_RANGE;
    if y < 0x8000_0000 then y else y - UINT32_RANGE
  }

  /** The index of the oldest item as the code computes it, in 32-bit
      arithmetic with a signed intermediate result. */
  function OldestIndex(length: nat, pos: nat, count: nat): int {
    var index := AsInt32(pos - count + 1);
    if index < 0 then AsInt32(index + length) else index
  }

  /** That index is right for every state of the queue exactly for lengths up
      to 2^31. */
  lemma {:induction false} OldestIndexIffLength(length: nat)
    requires 0 < length < UINT32_RANGE
    ensures (forall pos: nat, count: nat :: pos < length && 0 < count <= length ==>
               OldestIndex(length, pos, count) == At(length, pos, count, 0)) <==> length <= 0x8000_0000
  {
    if length > 0x8000_0000 {
      assert OldestIndex(length, 0x8000_0000, 1) != At(length, 0x8000_0000, 1, 0);
    }
  }

  lemma {:induction false} EnqueueView<T>(q: seq<T>, pos: nat, count: nat, x: T)
    requires pos < |q| && count <= |q|
    ensures var next := if pos + 1 == |q| then 0 else pos + 1;
            && next < |q|
            && (count < |q| ==> View(q[next := x], next, count + 1) == View(q, pos, count) + [x])
            && (count == |q| ==>
              q[next] == View(q, pos, count)[0] && View(q[next := x], next, count) == View(q, pos, count)[1..] + [x])
  {
  }

  class BVQ<T(0)> {
    const queueLength: nat
    const queueMode: Mode
    const freeItem: bool
    const queue: array<T>
    var queuePos: nat
    var queueCount: nat
    var semQueueCount: nat

    /** Between calls the semaphore agrees with the count. */
    ghost predicate Valid()
      reads this
    {
      && 0 < queueLength < UINT32_RANGE && queue.Length == queueLength
      && queuePos < queueLength && queueCount <= queueLength
      && semQueueCount == queueCount
    }

    /** The index of the oldest item is right in every state: see
        OldestIndexIffLength. */
    ghost predicate IndexFits() {
      queueLength <= 0x8000_0000
    }

    /** The queued items, oldest first. */
    ghost function Contents(): seq<T>
      reads this, queue
      requires Valid()
    {
      View(queue[..], queuePos, queueCount)
    }

    constructor (length: nat, mode: Mode, free: bool)
      requires 0 < length < UINT32_RANGE
      ensures Valid() && fresh(queue) && Contents() == []
      ensures queueLength == length && queueMode == mode && freeItem == free
    {
      queueLength, queueMode, freeItem := length, mode, free;
      queue := new T[length];
      queuePos, queueCount, semQueueCount := 0, 0, 0;
    }

    /** Moves the write position on by one and writes there. */
    method Write(item: T)
      requires 0 < queueLength && queue.Length == queueLength && queuePos < queueLength
      modifies this`queuePos, queue
      ensures queuePos == if old(queuePos) + 1 == queueLength then 0 else old(queuePos) + 1
      ensures queue[..] == old(queue[..])[queuePos := item]
    {
      queuePos := queuePos + 1;
      if queuePos == queueLength {
        queuePos := 0;
      }
      queue[queuePos] := item;
    }

    method Enqueue(item: Option<T>) returns (status: Status, freed: seq<T>)
      requires Valid()
      modifies this, queue
      ensures Valid()
      ensures item.None? ==> status == InvalidParameter && freed == [] && Contents() == old(Contents())
      ensures item.Some? ==>
                var r := EnqueueItems(old(Contents()), queueLength, queueMode, item.value);
                && Contents() == r.items && status == r.status
                && freed == if freeItem then r.removed + r.refused else []
      ensures item.Some? && old(queueCount) < queueLength ==>
                Contents() == old(Contents()) + [item.value] && status == Ok && freed == []
      ensures item.Some? && old(queueCount) == queueLength && queueMode == DropOldest ==>
                && Contents() == old(Contents())[1..] + [item.value] && status == Ok
                && freed == if freeItem then [old(Contents())[0]] else []
      ensures item.Some? && old(queueCount) == queueLength && queueMode == DropCurrent ==>
                && Contents() == old(Contents()) && status == Ok
                && freed == if freeItem then [item.value] else []
      ensures item.Some? && old(queueCount) == queueLength && queueMode == AvoidDrop ==>
                Contents() == old(Contents()) && status == OutOfMemory && freed == []
    {
      freed := [];
      if item.None? {
        return InvalidParameter, freed;
      }
      EnqueueView(queue[..], queuePos, queueCount, item.value);
      match queueMode {
        case DropOldest =>
          if queueCount == queueLength {
            var next := if queuePos + 1 == queueLength then 0 else queuePos + 1;
            if freeItem {
              freed := [queue[next]];
            }
            Write(item.value);
          } else {
            Write(item.value);
            semQueueCount := semQueueCount + 1;
            queueCount := queueCount + 1;
          }
        case DropCurrent =>
          if queueCount < queueLength {
            Write(item.value);
            semQueueCount := semQueueCount + 1;
            queueCount := queueCount + 1;
          } else if freeItem {
            freed := [item.value];
          }
        case AvoidDrop =>
          if queueCount < queueLength {
            Write(item.value);
            semQueueCount := semQueueCount + 1;
            queueCount := queueCount + 1;
          } else {
            return OutOfMemory, freed;
          }
      }
      status := Ok;
    }

    /** What stands at the index computed in 32-bit arithmetic; `stray` is what
        is read outside the ring. */
    method Oldest(stray: T) returns (item: T)
      requires Valid() && queueCount > 0
      ensures IndexFits() ==> item == Contents()[0]
    {
      OldestIndexIffLength(queueLength);
      var index := OldestIndex(queueLength, queuePos, queueCount);
      item := if 0 <= index < queueLength then queue[index] else stray;
    }

    /** One look at the oldest item; not allowed while it could be freed. */
    method Peek(initial: T, stray: T) returns (status: Status, item: T)
      requires Valid()
      ensures if queueMode == DropOldest && freeItem then status == IllegalOperation
              else if Contents() == [] then status == TimeOut
              else status == Ok && (IndexFits() ==> item == Contents()[0])
    {
      item := initial;
      if queueMode == DropOldest && freeItem {
        return IllegalOperation, item;
      }
      if queueCount != 0 {
        item := Oldest(stray);
        return Ok, item;
      }
      status := TimeOut;
    }

    /** Takes the oldest item out, and the token that goes with it. */
    method Remove(stray: T) returns (item: T)
      requires Valid() && queueCount > 0
      modifies this`queueCount, this`semQueueCount
      ensures Valid() && queueCount == old(queueCount) - 1 && Contents() == old(Contents())[1..]
      ensures IndexFits() ==> item == old(Contents())[0]
    {
      item := Oldest(stray);
      semQueueCount := semQueueCount - 1;
      queueCount := queueCount - 1;
    }

    /** Takes the oldest item; with nothing queued the semaphore times out. */
    method Dequeue(initial: T, stray: T) returns (status: Status, item: T)
      requires Valid()
      modifies this`queueCount, this`semQueueCount
      ensures Valid()
      ensures if old(Contents()) == [] then status == TimeOut && Contents() == []
              else status == Ok && Contents() == old(Contents())[1..] && (IndexFits() ==> item == old(Contents())[0])
    {
      item := initial;
      if semQueueCount == 0 {
        return TimeOut, item;
      }
      item := Remove(stray);
      status := Ok;
    }

    /** All items in the order in which they would be dequeued. */
    method GetList() returns (status: Status, list: seq<T>)
      requires Valid()
      ensures if queueMode == DropOldest && freeItem then status == IllegalOperation && list == []
              else status == Ok && |list| == |Contents()| && (IndexFits() ==> list == Contents())
    {
      list := [];
      if queueMode == DropOldest && freeItem {
        return IllegalOperation, list;
      }
      var sum := queuePos - queueCount + 1 + queueLength;
      var index: nat := sum % UINT32_RANGE;
      assert index == if sum < UINT32_RANGE then sum else sum - UINT32_RANGE;
      if index >= queueLength {
        index := index - queueLength;
      }
      for i := 0 to queueCount
        invariant |list| == i && (i < queueCount ==> index < queueLength)
        invariant IndexFits() ==> list == Contents()[..i]
        invariant IndexFits() && i < queueCount ==> index == At(queueLength, queuePos, queueCount, i)
      {
        list := list + [queue[index]];
        index := index + 1;
        if index == queueLength {
          index := 0;
        }
      }
      status := Ok;
    }

    /** Frees everything, oldest first; without a callback nothing happens. */
    method Clear(stray: T) returns (freed: seq<T>)
      requires Valid()
      modifies this`queueCount, this`semQueueCount
      ensures Valid()
      ensures if freeItem then |freed| == old(queueCount) && Contents() == []
              else freed == [] && Contents() == old(Contents())
      ensures freeItem && IndexFits() ==> freed == old(Contents())
    {
      freed := [];
      if freeItem {
        ghost var was := Contents();
        while queueCount != 0
          invariant Valid() && |freed| + queueCount == |was| && Contents() == was[|freed|..]
          invariant IndexFits() ==> freed == was[..|freed|]
          decreases queueCount
        {
          var item := Remove(stray);
          freed := freed + [item];
        }
      }
    }
  }

  // ---- Whole runs ----

  datatype Op<T> = Enqueue(x: T) | Dequeue | Clear

  /** `accepted` are the items enqueue returned Ok for, `stored` those that
      entered the queue, `left` those that left it, in order; `dequeued` and
      `dropped` say where items went. */
  datatype Run<T> = Run(items: seq<T>, accepted: seq<T>, stored: seq<T>, left: seq<T>,
                        dequeued: seq<T>, dropped: seq<T>, freed: seq<T>)

  function Apply<T>(r: Run<T>, length: nat, mode: Mode, free: bool, op: Op<T>): Run<T>
    requires |r.items| <= length && 0 < length
  {
    match op
    case Enqueue(x) =>
      var e := EnqueueItems(r.items, length, mode, x);
      var taken := e.status == Ok;
      r.(items := e.items,
         accepted := if taken then r.accepted + [x] else r.accepted,
         stored := if taken && e.refused == [] then r.stored + [x] else r.stored,
         left := r.left + e.removed,
         dropped := r.dropped + (e.removed + e.refused),
         freed := if free then r.freed + (e.removed + e.refused) else r.freed)
    case Dequeue =>
      if r.items == [] then r
      else r.(items := r.items[1..], left := r.left + r.items[..1], dequeued := r.dequeued + r.items[..1])
    case Clear =>
      if free then r.(items := [], left := r.left + r.items, dropped := r.dropped + r.items, freed := r.freed + r.items)
      else r
  }

  /** FIFO, and every accepted item is in exactly one place. */
  ghost predicate Accounted<T(!new)>(r: Run<T>, length: nat, free: bool) {
    && |r.items| <= length
    && r.left + r.items == r.stored
    && (forall x ::
          Times(r.accepted, Is(x)) == Times(r.items, Is(x)) + Times(r.dequeued, Is(x)) + Times(r.dropped, Is(x)))
    && r.freed == if free then r.dropped else []
  }

  lemma {:induction false} ApplyFifo<T>(r: Run<T>, length: nat, mode: Mode, free: bool, op: Op<T>)
    requires 0 < length && |r.items| <= length && r.left + r.items == r.stored
    ensures var n := Apply(r, length, mode, free, op);
            n.left + n.items == n.stored
  {
    if r.items != [] {
      assert r.items == r.items[..1] + r.items[1..];
    }
    if op.Enqueue? {
      assert r.stored + [op.x] == r.left + (r.items + [op.x]);
    }
  }

  lemma {:induction false} EnqueueCounts<T>(items: seq<T>, length: nat, mode: Mode, y: T, x: T)
    requires |items| <= length && 0 < length
    ensures var e := EnqueueItems(items, length, mode, y);
            Times(e.items, Is(x)) + Times(e.removed + e.refused, Is(x)) ==
            Times(items, Is(x)) + if e.status == Ok then Times([y], Is(x)) else 0
  {
    if |items| < length {
      TimesAdd(items, [y], Is(x));
    } else {
      assert items == items[..1] + items[1..];
      TimesAdd(items[..1], items[1..], Is(x));
      TimesAdd(items[1..], [y], Is(x));
      assert items[..1] + [] == items[..1] && [] + [y] == [y];
    }
  }

  lemma {:induction false} ApplyCounts<T>(r: Run<T>, length: nat, mode: Mode, free: bool, op: Op<T>, x: T)
    requires 0 < length && |r.items| <= length
    requires Times(r.accepted, Is(x)) == Times(r.items, Is(x)) + Times(r.dequeued, Is(x)) + Times(r.dropped, Is(x))
    ensures var n := Apply(r, length, mode, free, op);
            Times(n.accepted, Is(x)) == Times(n.items, Is(x)) + Times(n.dequeued, Is(x)) + Times(n.dropped, Is(x))
  {
    match op
    case Enqueue(y) =>
      var e := EnqueueItems(r.items, length, mode, y);
      EnqueueCounts(r.items, length, mode, y, x);
      TimesAdd(r.accepted, [y], Is(x));
      TimesAdd(r.dropped, e.removed + e.refused, Is(x));
    case Dequeue =>
      if r.items != [] {
        assert r.items == r.items[..1] + r.items[1..];
        TimesAdd(r.items[..1], r.items[1..], Is(x));
        TimesAdd(r.dequeued, r.items[..1], Is(x));
      }
    case Clear =>
      TimesAdd(r.dropped, r.items, Is(x));
  }

  lemma {:induction false} ApplyAccounted<T(!new)>(r: Run<T>, length: nat, mode: Mode, free: bool, op: Op<T>)
    requires 0 < length && Accounted(r, length, free)
    ensures Accounted(Apply(r, length, mode, free, op), length, free)
  {
    var n := Apply(r, length, mode, free, op);
    ApplyFifo(r, length, mode, free, op);
    forall x ensures Times(n.accepted, Is(x)) ==
      Times(n.items, Is(x)) + Times(n.dequeued, Is(x)) + Times(n.dropped, Is(x)) {
      ApplyCounts(r, length, mode, free, op, x);
    }
  }

  function ApplyAll<T>(r: Run<T>, length: nat, mode: Mode, free: bool, ops: seq<Op<T>>): Run<T>
    requires |r.items| <= length && 0 < length
    decreases |ops|
  {
    if ops == [] then r else ApplyAll(Apply(r, length, mode, free, ops[0]), length, mode, free, ops[1..])
  }

  /** Over every run in every mode: items leave in the order they were stored,
      every accepted item is exactly once queued, dequeued or dropped, and the
      dropped ones, and no others, are freed, once each, if there is a
      callback. */
  lemma {:induction false} RunsAccounted<T(!new)>(r: Run<T>, length: nat, mode: Mode, free: bool, ops: seq<Op<T>>)
    requires 0 < length && Accounted(r, length, free)
    ensures Accounted(ApplyAll(r, length, mode, free, ops), length, free)
    decreases |ops|
  {
    if ops != [] {
      ApplyAccounted(r, length, mode, free, ops[0]);
      RunsAccounted(Apply(r, length, mode, free, ops[0]), length, mode, free, ops[1..]);
    }
  }
}
