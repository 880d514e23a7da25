/** The bounded ring buffer that carries packet buffers between the reader
    and the parser thread (common/bcb_circular_buffer.c), proved against a
    bounded FIFO sequence. Every operation runs under the buffer's mutex, so
    one call is one step. */
module CircularBuffer {
  import opened Types

  datatype Status = Ok | OutOfMemory

  /** What a put does to the stored sequence. */
  function PutItems<T>(items: seq<T>, capacity: nat, x: T): (seq<T>, Status) {
    if |items| < capacity then (items + [x], Ok) else (items, OutOfMemory)
  }

  /** What a get does to the stored sequence. */
  function GetItems<T>(items: seq<T>): (seq<T>, Status) {
    if items == [] then (items, OutOfMemory) else (items[1..], Ok)
  }

  /** The items stored in `buffer`, oldest first: from `tail` up to `head`,
      around the end. */
  function View<T>(buffer: seq<T>, head: nat, tail: nat, full: bool): seq<T>
    requires head < |buffer| && tail < |buffer|
  {
    if full || head < tail then buffer[tail..] + buffer[..head] else buffer[tail..head]
  }

  lemma {:induction false} NextIndex(i: nat, max: nat)
    requires i < max
    ensures (i + 1) % max == if i + 1 == max then 0 else i + 1
  {
  }

  lemma {:induction false} PutView<T>(b: seq<T>, head: nat, tail: nat, x: T, next: nat)
    requires head < |b| && tail < |b|
    requires next == if head + 1 == |b| then 0 else head + 1
    ensures View(b[head := x], next, tail, next == tail) == View(b, head, tail, false) + [x]
  {
    var c := b[head := x];
    if head < tail {
      assert c[tail..] == b[tail..];
      assert c[..next] == b[..head] + [x];
    } else if next == 0 {
      assert c[tail..] == b[tail..head] + [x];
      assert c[..0] == [];
    } else {
      assert c[tail..next] == b[tail..head] + [x];
    }
  }

  lemma {:induction false} GetView<T>(b: seq<T>, head: nat, tail: nat, full: bool, next: nat)
    requires head < |b| && tail < |b| && (full ==> head == tail) && (full || head != tail)
    requires next == if tail + 1 == |b| then 0 else tail + 1
    ensures View(b, head, tail, full) == [b[tail]] + View(b, head, next, false)
  {
    if full || head < tail {
      assert b[tail..] == [b[tail]] + b[tail + 1..];
      if next == 0 {
        assert b[tail + 1..] == [];
        assert b[0..head] == b[..head];
      }
    } else {
      assert b[tail..head] == [b[tail]] + b[tail + 1..head];
    }
  }

  lemma {:induction false} FirstTaken<T>(items: seq<T>, item: T, rest: seq<T>)
    requires items == [item] + rest
    ensures items != [] && items[0] == item && items[1..] == rest
  {
  }

  lemma {:induction false} TakeFirst<T>(freed: seq<T>, rest: seq<T>, item: T, more: seq<T>)
    requires rest != [] && item == rest[0] && more == rest[1..]
    ensures freed + rest == freed + [item] + more
  {
  }

  class Ring<T(0)> {
    const max: nat
    const buffer: array<T>
    var head: nat
    var tail: nat
    var full: bool

    ghost predicate Valid()
      reads this
    {
      && 0 < max < UINT32_RANGE
      && buffer.Length == max
      && head < max
      && tail < max
      && (full ==> head == tail)
    }

    /** The stored items, oldest first. */
    ghost function Contents(): seq<T>
      reads this, buffer
      requires Valid()
    {
      View(buffer[..], head, tail, full)
    }

    constructor (size: nat)
      requires 0 < size < UINT32_RANGE
      ensures Valid() && fresh(buffer) && max == size && Contents() == []
    {
      max := size;
      buffer := new T[size];
      head, tail, full := 0, 0, false;
    }

    /** The size is computed in 32-bit arithmetic, which may wrap in `max + head`. */
    method GetSize() returns (size: nat)
      requires Valid()
      ensures size == |Contents()|
    {
      if full {
        return max;
      }
      if head >= tail {
        size := head - tail;
      } else {
        size := ((max + head) % UINT32_RANGE - tail) % UINT32_RANGE;
      }
    }

    method IsEmpty() returns (empty: bool)
      requires Valid()
      ensures empty <==> Contents() == []
    {
      empty := !full && head == tail;
    }

    method IsFull() returns (isFull: bool)
      requires Valid()
      ensures isFull <==> |Contents()| == max
    {
      isFull := full;
    }

    method Put(data: T) returns (status: Status)
      requires Valid()
      modifies this, buffer
      ensures Valid()
      ensures (Contents(), status) == PutItems(old(Contents()), max, data)
      ensures if |old(Contents())| < max then status == Ok && Contents() == old(Contents()) + [data]
              else status == OutOfMemory && Contents() == old(Contents())
    {
      if full {
        return OutOfMemory;
      }
      NextIndex(head, max);
      PutView(buffer[..], head, tail, data, (head + 1) % max);
      ghost var written := buffer[..][head := data];
      buffer[head] := data;
      assert buffer[..] == written;
      head := (head + 1) % max;
      full := head == tail;
      return Ok;
    }

    method Get(initial: T) returns (status: Status, data: T)
      requires Valid()
      modifies this`tail, this`full
      ensures Valid()
      ensures (Contents(), status) == GetItems(old(Contents()))
      ensures if old(Contents()) == [] then status == OutOfMemory && data == initial && Contents() == []
              else status == Ok && data == old(Contents())[0] && Contents() == old(Contents())[1..]
    {
      if !full && head == tail {
        return OutOfMemory, initial;
      }
      NextIndex(tail, max);
      GetView(buffer[..], head, tail, full, (tail + 1) % max);
      FirstTaken(Contents(), buffer[tail], View(buffer[..], head, (tail + 1) % max, false));
      data := buffer[tail];
      tail := (tail + 1) % max;
      full := false;
      status := Ok;
    }

    /** Reset with a free callback hands every stored item to it, oldest
        first; without one the items are forgotten. */
    method Reset(freeItem: bool, initial: T) returns (freed: seq<T>)
      requires Valid()
      modifies this
      ensures Valid() && Contents() == []
      ensures freed == if freeItem then old(Contents()) else []
    {
      freed := [];
      if freeItem {
        var size := GetSize();
        ghost var rest := Contents();
        while size != 0
          invariant Valid() && Contents() == rest && size == |rest|
          invariant freed + rest == old(Contents())
          decreases size
        {
          var status, item := Get(initial);
          TakeFirst(freed, rest, item, Contents());
          rest := Contents();
          freed := freed + [item];
          size := GetSize();
        }
      }
      head, tail, full := 0, 0, false;
    }
  }

  // ---- Whole runs ----

  datatype Op<T> = Put(x: T) | Get | Reset(freeItem: bool)

  /** `accepted` logs every item a put took, `removed` every item that left,
      in order; `freed` those that reset handed to the callback. */
  datatype Run<T> = Run(items: seq<T>, accepted: seq<T>, removed: seq<T>, freed: seq<T>)

  function Apply<T>(r: Run<T>, capacity: nat, op: Op<T>): Run<T> {
    match op
    case Put(x) =>
      var (items, status) := PutItems(r.items, capacity, x);
      r.(items := items, accepted := if status == Ok then r.accepted + [x] else r.accepted)
    case Get =>
      var (items, status) := GetItems(r.items);
      r.(items := items, removed := if status == Ok then r.removed + [r.items[0]] else r.removed)
    case Reset(freeItem) =>
      r.(items := [], removed := r.removed + r.items, freed := if freeItem then r.freed + r.items else r.freed)
  }

  function ApplyAll<T>(r: Run<T>, capacity: nat, ops: seq<Op<T>>): Run<T>
    decreases |ops|
  {
    if ops == [] then r else ApplyAll(Apply(r, capacity, ops[0]), capacity, ops[1..])
  }

  /** FIFO over whole runs: what left, followed by what is stored, is exactly
      what was accepted, in the order it was accepted; the buffer never holds
      more than its capacity. */
  lemma {:induction false} RunIsFifo<T>(r: Run<T>, capacity: nat, ops: seq<Op<T>>)
    requires r.removed + r.items == r.accepted && |r.items| <= capacity
    ensures var e := ApplyAll(r, capacity, ops);
            e.removed + e.items == e.accepted && |e.items| <= capacity
    decreases |ops|
  {
    if ops != [] {
      var n := Apply(r, capacity, ops[0]);
      if ops[0].Put? && |r.items| < capacity {
        assert n.removed + n.items == (r.removed + r.items) + [ops[0].x];
      }
      assert n.removed + n.items == n.accepted;
      RunIsFifo(n, capacity, ops[1..]);
    }
  }
}
