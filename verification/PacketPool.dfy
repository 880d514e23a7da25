/** The pool of packet buffers shared by the reader and the parser thread
    (sdk/bta_eth.c): two ring buffers carry them back and forth, protocol v1
    arrays hold some. The threads are interleaved step by step; a step is what
    a thread does between two operations on a ring. */
module PacketPool {
  import opened Counting
  import opened Types
  import CircularBuffer
  import L = LegacyFrames

  /** Length of both rings and the most buffers ever allocated. */
  const QUEUE_LEN: nat := 5000

  const PREALLOCATED: nat := 500

  /** Buffers are numbered in the order they are allocated. `returning` are
      those the parser is about to give back, in order; `lost` are those for
      which a ring was full. */
  datatype Pool = Pool(toFill: seq<nat>, toParse: seq<nat>, reader: Option<nat>, parser: Option<nat>,
                       returning: seq<nat>, arrays: L.State, made: nat, lost: seq<nat>)

  datatype Action =
    // the reader takes an empty buffer, or allocates one (which may fail)
    | ReaderGet(allocates: bool)
    // a datagram has come into the reader's buffer
    | ReaderPut
    | ParserGet
    // protocol v2, or a datagram that fails a check: the buffer goes back
    | ParserDone
    // protocol v1
    | ParserKeeps(frameCounter: nat, packetCounter: nat, totalLength: nat, payload: seq<byte>)
    | ParserPut

  predicate Legal(a: Action) {
    a.ParserKeeps? ==> L.Legal(L.Datagram(a.frameCounter, a.packetCounter, a.totalLength, L.Packet(0, a.payload)))
  }

  function Ids(packets: seq<L.Packet>): (ids: seq<nat>)
    ensures |ids| == |packets|
  {
    if packets == [] then [] else Ids(packets[..|packets| - 1]) + [packets[|packets| - 1].id]
  }

  function Step(s: Pool, a: Action): Pool
    requires L.Valid(s.arrays) && Legal(a)
  {
    match a
    case ReaderGet(allocates) =>
      if s.reader.Some? then s
      else if s.toFill != [] then s.(reader := Some(s.toFill[0]), toFill := CircularBuffer.GetItems(s.toFill).0)
      else if s.made < QUEUE_LEN && allocates then s.(reader := Some(s.made), made := s.made + 1)
      else s
    case ReaderPut =>
      if s.reader.None? then s
      else
        var (items, status) := CircularBuffer.PutItems(s.toParse, QUEUE_LEN, s.reader.value);
        s.(toParse := items, reader := None, lost := if status.Ok? then s.lost else s.lost + [s.reader.value])
    case ParserGet =>
      if s.parser.Some? || s.returning != [] || s.toParse == [] then s
      else s.(parser := Some(s.toParse[0]), toParse := CircularBuffer.GetItems(s.toParse).0)
    case ParserDone =>
      if s.parser.None? then s else s.(parser := None, returning := s.returning + [s.parser.value])
    case ParserKeeps(frameCounter, packetCounter, totalLength, payload) =>
      if s.parser.None? then s
      else
        var d := L.Datagram(frameCounter, packetCounter, totalLength, L.Packet(s.parser.value, payload));
        var r := L.Step(s.arrays, d);
        s.(parser := None, arrays := r.st, returning := s.returning + Ids(r.freed))
    case ParserPut =>
      if s.returning == [] then s
      else
        var (items, status) := CircularBuffer.PutItems(s.toFill, QUEUE_LEN, s.returning[0]);
        s.(toFill := items, returning := s.returning[1..],
           lost := if status.Ok? then s.lost else s.lost + [s.returning[0]])
  }

  /** What opening the stream sets up; allocation may stop early. */
  function Start(preallocated: nat): Pool {
    Pool(seq(preallocated, i => i), [], None, None, [], L.Start(), preallocated, [])
  }

  // ---- Where a buffer is ----

  function Occurs(ids: seq<nat>, id: nat): nat {
    Times(ids, Is<nat>(id))
  }

  function In(place: Option<nat>, id: nat): nat {
    if place == Some(id) then 1 else 0
  }

  function HasId(id: nat): L.Packet -> bool {
    (p: L.Packet) => p.id == id
  }

  /** In how many places the buffer is: rings, threads, arrays. */
  function Places(s: Pool, id: nat): nat
    requires L.Valid(s.arrays)
  {
    Occurs(s.toFill, id) + Occurs(s.toParse, id) + In(s.reader, id) + In(s.parser, id)
    + Occurs(s.returning, id) + L.TimesHeld(s.arrays, HasId(id))
  }

  /** Every allocated buffer is in exactly one place, and none is lost. */
  ghost predicate Conserved(s: Pool) {
    && L.Valid(s.arrays) && s.made <= QUEUE_LEN && s.lost == []
    && forall id: nat :: Places(s, id) == if id < s.made then 1 else 0
  }

  lemma {:induction false} OccursAdd(a: seq<nat>, b: seq<nat>, id: nat)
    ensures Occurs(a + b, id) == Occurs(a, id) + Occurs(b, id)
  {
    TimesAdd<nat>(a, b, Is<nat>(id));
  }

  lemma {:induction false} OccursOne(x: nat, id: nat)
    ensures Occurs([x], id) == if x == id then 1 else 0
  {
    TimesOne<nat>(x, Is<nat>(id));
  }

  lemma {:induction false} OccursFirst(ids: seq<nat>, id: nat)
    requires ids != []
    ensures Occurs(ids, id) == Occurs(ids[1..], id) + if ids[0] == id then 1 else 0
  {
    TimesFirst<nat>(ids, Is<nat>(id));
  }

  lemma {:induction false} OccursWithout(ids: seq<nat>, j: nat, id: nat)
    requires j < |ids|
    ensures Occurs(ids[..j] + ids[j + 1..], id) == Occurs(ids, id) - if ids[j] == id then 1 else 0
  {
    Without<nat>(ids, j, Is<nat>(id));
  }

  lemma {:induction false} OccursIds(packets: seq<L.Packet>, id: nat)
    ensures Occurs(Ids(packets), id) == Times(packets, HasId(id))
  {
    if packets != [] {
      var n := |packets| - 1;
      OccursIds(packets[..n], id);
      assert Ids(packets)[..n] == Ids(packets[..n]);
    }
  }

  /** Distinct numbers below n are at most n. */
  lemma {:induction false} DistinctFit(ids: seq<nat>, n: nat)
    requires forall id: nat :: Occurs(ids, id) <= if id < n then 1 else 0
    ensures |ids| <= n
  {
    if ids != [] {
      OccursFirst(ids, ids[0]);
      if n == 0 {
        assert false;
      }
      if Occurs(ids, n - 1) == 0 {
        DistinctFit(ids, n - 1);
      } else {
        var j := Position<nat>(ids, Is<nat>(n - 1));
        var rest := ids[..j] + ids[j + 1..];
        forall id: nat ensures Occurs(rest, id) <= if id < n - 1 then 1 else 0 {
          OccursWithout(ids, j, id);
        }
        DistinctFit(rest, n - 1);
      }
    }
  }

  /** A ring that takes a buffer from a thread is not full. */
  lemma {:induction false} RoomFor(ring: seq<nat>, x: nat, n: nat)
    requires forall id: nat :: Occurs(ring, id) + (if x == id then 1 else 0) <= if id < n then 1 else 0
    ensures |ring| < n
  {
    forall id: nat ensures Occurs(ring + [x], id) <= if id < n then 1 else 0 {
      OccursAdd(ring, [x], id);
      OccursOne(x, id);
    }
    DistinctFit(ring + [x], n);
  }

  // ---- Each step ----

  lemma {:induction false} ReaderGetConserves(s: Pool, allocates: bool, id: nat)
    requires Conserved(s)
    ensures var s' := Step(s, ReaderGet(allocates));
            Places(s', id) == if id < s'.made then 1 else 0
  {
    assert Places(s, id) == if id < s.made then 1 else 0;
    if s.toFill != [] {
      OccursFirst(s.toFill, id);
    }
  }

  /** Whenever a thread puts a buffer, the ring has room. */
  lemma {:induction false} ParseQueueHasRoom(s: Pool)
    requires Conserved(s) && s.reader.Some?
    ensures |s.toParse| < QUEUE_LEN
  {
    forall id: nat
      ensures Occurs(s.toParse, id) + (if s.reader.value == id then 1 else 0) <= if id < s.made then 1 else 0
    {
      assert Places(s, id) == if id < s.made then 1 else 0;
    }
    RoomFor(s.toParse, s.reader.value, s.made);
  }

  lemma {:induction false} FillQueueHasRoom(s: Pool)
    requires Conserved(s) && s.returning != []
    ensures |s.toFill| < QUEUE_LEN
  {
    forall id: nat
      ensures Occurs(s.toFill, id) + (if s.returning[0] == id then 1 else 0) <= if id < s.made then 1 else 0
    {
      assert Places(s, id) == if id < s.made then 1 else 0;
      OccursFirst(s.returning, id);
    }
    RoomFor(s.toFill, s.returning[0], s.made);
  }

  lemma {:induction false} ReaderPutConserves(s: Pool, id: nat)
    requires Conserved(s)
    ensures var s' := Step(s, ReaderPut);
            Places(s', id) == (if id < s'.made then 1 else 0) && s'.lost == []
  {
    assert Places(s, id) == if id < s.made then 1 else 0;
    if s.reader.Some? {
      ParseQueueHasRoom(s);
      OccursAdd(s.toParse, [s.reader.value], id);
      OccursOne(s.reader.value, id);
    }
  }

  lemma {:induction false} ParserGetConserves(s: Pool, id: nat)
    requires Conserved(s)
    ensures var s' := Step(s, ParserGet);
            Places(s', id) == if id < s'.made then 1 else 0
  {
    assert Places(s, id) == if id < s.made then 1 else 0;
    if s.toParse != [] {
      OccursFirst(s.toParse, id);
    }
  }

  /** The parser's buffer goes into the arrays, and what comes out of them is
      to be given back. */
  lemma {:induction false} KeptPlaces(s: Pool, arrays: L.State, freed: seq<nat>, x: nat, id: nat)
    requires L.Valid(s.arrays) && L.Valid(arrays) && s.parser == Some(x)
    requires L.TimesHeld(arrays, HasId(id)) + Occurs(freed, id) ==
             L.TimesHeld(s.arrays, HasId(id)) + if x == id then 1 else 0
    ensures Places(s.(parser := None, arrays := arrays, returning := s.returning + freed), id) == Places(s, id)
  {
    OccursAdd(s.returning, freed, id);
  }

  lemma {:induction false} ParserDoneConserves(s: Pool, id: nat)
    requires Conserved(s)
    ensures var s' := Step(s, ParserDone);
            Places(s', id) == if id < s'.made then 1 else 0
  {
    assert Places(s, id) == if id < s.made then 1 else 0;
    if s.parser.Some? {
      OccursOne(s.parser.value, id);
      KeptPlaces(s, s.arrays, [s.parser.value], s.parser.value, id);
    }
  }

  lemma {:induction false} ArraysConserve(arrays: L.State, d: L.Datagram, id: nat)
    requires L.Valid(arrays) && L.Legal(d)
    ensures var r := L.Step(arrays, d);
            L.TimesHeld(r.st, HasId(id)) + Occurs(Ids(r.freed), id)
            == L.TimesHeld(arrays, HasId(id)) + if d.packet.id == id then 1 else 0
  {
    L.StepConserves(arrays, d, HasId(id));
    OccursIds(L.Step(arrays, d).freed, id);
    assert [d.packet][..0] == [];
  }

  lemma {:induction false} ParserKeepsConserves(s: Pool, a: Action, id: nat)
    requires Conserved(s) && a.ParserKeeps? && Legal(a)
    ensures var s' := Step(s, a);
            Places(s', id) == if id < s'.made then 1 else 0
  {
    assert Places(s, id) == if id < s.made then 1 else 0;
    if s.parser.Some? {
      var d := L.Datagram(a.frameCounter, a.packetCounter, a.totalLength, L.Packet(s.parser.value, a.payload));
      ArraysConserve(s.arrays, d, id);
      var r := L.Step(s.arrays, d);
      KeptPlaces(s, r.st, Ids(r.freed), s.parser.value, id);
    }
  }

  lemma {:induction false} ParserPutConserves(s: Pool, id: nat)
    requires Conserved(s)
    ensures var s' := Step(s, ParserPut);
            Places(s', id) == (if id < s'.made then 1 else 0) && s'.lost == []
  {
    assert Places(s, id) == if id < s.made then 1 else 0;
    if s.returning != [] {
      FillQueueHasRoom(s);
      OccursFirst(s.returning, id);
      OccursAdd(s.toFill, [s.returning[0]], id);
      OccursOne(s.returning[0], id);
    }
  }

  lemma {:induction false} StepPlaces(s: Pool, a: Action, id: nat)
    requires Conserved(s) && Legal(a)
    ensures Places(Step(s, a), id) == if id < Step(s, a).made then 1 else 0
  {
    match a
    case ReaderGet(allocates) => ReaderGetConserves(s, allocates, id);
    case ReaderPut => ReaderPutConserves(s, id);
    case ParserGet => ParserGetConserves(s, id);
    case ParserDone => ParserDoneConserves(s, id);
    case ParserKeeps(_, _, _, _) => ParserKeepsConserves(s, a, id);
    case ParserPut => ParserPutConserves(s, id);
  }

  lemma {:induction false} StepConserves(s: Pool, a: Action)
    requires Conserved(s) && Legal(a)
    ensures Conserved(Step(s, a))
  {
    var s' := Step(s, a);
    forall id: nat ensures Places(s', id) == if id < s'.made then 1 else 0 {
      StepPlaces(s, a, id);
    }
    if a.ReaderPut? {
      ReaderPutConserves(s, 0);
    } else if a.ParserPut? {
      ParserPutConserves(s, 0);
    }
  }

  // ---- Whole runs ----

  function Run(s: Pool, actions: seq<Action>): Pool
    requires L.Valid(s.arrays) && forall k :: 0 <= k < |actions| ==> Legal(actions[k])
    decreases |actions|
  {
    if actions == [] then s else Run(Step(s, actions[0]), actions[1..])
  }

  lemma {:induction false} StartConserved(preallocated: nat)
    requires preallocated <= PREALLOCATED
    ensures Conserved(Start(preallocated))
  {
    var s := Start(preallocated);
    forall id: nat ensures Places(s, id) == if id < preallocated then 1 else 0 {
      OccursBelow(preallocated, id);
      L.HeldEmpty(512);
    }
  }

  lemma {:induction false} OccursBelow(n: nat, id: nat)
    ensures Occurs(seq(n, i => i), id) == if id < n then 1 else 0
  {
    if n > 0 {
      assert seq(n, i => i)[..n - 1] == seq(n - 1, i => i);
      OccursBelow(n - 1, id);
    }
  }

  /** In every interleaving of the two threads, every allocated packet buffer
      is in exactly one place, at most 5000 exist, and no ring is ever found
      full. */
  lemma {:induction false} RunConserves(s: Pool, actions: seq<Action>)
    requires Conserved(s) && forall k :: 0 <= k < |actions| ==> Legal(actions[k])
    ensures Conserved(Run(s, actions))
    decreases |actions|
  {
    if actions != [] {
      StepConserves(s, actions[0]);
      RunConserves(Step(s, actions[0]), actions[1..]);
    }
  }

  // ---- Buffers travel in order ----

  /** What the threads have done, in order, seen from what they hold: the
      buffers the reader put down with a datagram in them (`received`) and took
      up after preallocation or use (`reused`), those the parser took up
      (`taken`), had done with (`released`) and put down (`given`), and the
      datagrams of protocol v1 it kept (`kept`). */
  datatype Log = Log(received: seq<nat>, taken: seq<nat>, released: seq<nat>, given: seq<nat>, reused: seq<nat>,
                     kept: seq<L.Datagram>)

  const NOTHING_YET: Log := Log([], [], [], [], [], [])

  function Kept(s: Pool, a: Action): L.Datagram
    requires a.ParserKeeps? && s.parser.Some?
  {
    L.Datagram(a.frameCounter, a.packetCounter, a.totalLength, L.Packet(s.parser.value, a.payload))
  }

  function Note(s: Pool, a: Action, l: Log): Log
    requires L.Valid(s.arrays) && Legal(a)
  {
    var next := Step(s, a);
    match a
    case ReaderGet(_) =>
      if s.reader.None? && next.reader.Some? && next.made == s.made
      then l.(reused := l.reused + [next.reader.value]) else l
    case ReaderPut => if s.reader.Some? then l.(received := l.received + [s.reader.value]) else l
    case ParserGet =>
      if s.parser.None? && next.parser.Some? then l.(taken := l.taken + [next.parser.value]) else l
    case ParserDone => if s.parser.Some? then l.(released := l.released + [s.parser.value]) else l
    case ParserKeeps(_, _, _, _) =>
      if s.parser.Some?
      then l.(released := l.released + Ids(L.Step(s.arrays, Kept(s, a)).freed), kept := l.kept + [Kept(s, a)]) else l
    case ParserPut => if s.returning != [] then l.(given := l.given + s.returning[..1]) else l
  }

  function RunNotes(s: Pool, actions: seq<Action>, l: Log): Log
    requires L.Valid(s.arrays) && forall k :: 0 <= k < |actions| ==> Legal(actions[k])
    decreases |actions|
  {
    if actions == [] then l else RunNotes(Step(s, actions[0]), actions[1..], Note(s, actions[0], l))
  }

  /** The arrays after the datagrams the parser kept. */
  function Assembled(ds: seq<L.Datagram>): (st: L.State)
    requires forall k :: 0 <= k < |ds| ==> L.Legal(ds[k])
    ensures L.Valid(st)
  {
    if ds == [] then L.Start() else L.Step(Assembled(ds[..|ds| - 1]), ds[|ds| - 1]).st
  }

  /** Each ring holds what was put into it and has not been taken out, in this
      order; likewise what the parser still has to put down; and the arrays are
      the work of the datagrams kept. */
  predicate InOrder(s: Pool, l: Log, first: seq<nat>) {
    && l.taken + s.toParse == l.received
    && l.given + s.returning == l.released
    && l.reused + s.toFill == first + l.given
    && (forall k :: 0 <= k < |l.kept| ==> L.Legal(l.kept[k]))
    && s.arrays == Assembled(l.kept)
  }

  lemma {:induction false} ReaderKeepsOrder(s: Pool, a: Action, l: Log, first: seq<nat>)
    requires Conserved(s) && Legal(a) && InOrder(s, l, first) && (a.ReaderGet? || a.ReaderPut?)
    ensures InOrder(Step(s, a), Note(s, a, l), first)
  {
    if a.ReaderPut? && s.reader.Some? {
      ParseQueueHasRoom(s);
      assert l.taken + (s.toParse + [s.reader.value]) == l.received + [s.reader.value];
    } else if a.ReaderGet? && s.toFill != [] {
      assert l.reused + [s.toFill[0]] + s.toFill[1..] == l.reused + s.toFill;
    }
  }

  lemma {:induction false} PutInOrder(given: seq<nat>, returning: seq<nat>, reused: seq<nat>, toFill: seq<nat>,
                                      first: seq<nat>)
    requires returning != [] && reused + toFill == first + given
    ensures given + returning[..1] + returning[1..] == given + returning
    ensures reused + (toFill + [returning[0]]) == first + (given + returning[..1])
  {
    assert reused + (toFill + [returning[0]]) == (reused + toFill) + [returning[0]];
    assert first + (given + returning[..1]) == (first + given) + [returning[0]];
  }

  lemma {:induction false} ParserKeepsOrder(s: Pool, a: Action, l: Log, first: seq<nat>)
    requires Conserved(s) && Legal(a) && InOrder(s, l, first) && (a.ParserGet? || a.ParserDone? || a.ParserPut?)
    ensures InOrder(Step(s, a), Note(s, a, l), first)
  {
    if a.ParserGet? && s.toParse != [] {
      assert l.taken + [s.toParse[0]] + s.toParse[1..] == l.taken + s.toParse;
    } else if a.ParserDone? && s.parser.Some? {
      assert l.given + (s.returning + [s.parser.value]) == l.released + [s.parser.value];
    } else if a.ParserPut? && s.returning != [] {
      FillQueueHasRoom(s);
      PutInOrder(l.given, s.returning, l.reused, s.toFill, first);
    }
  }

  lemma {:induction false} KeepingKeepsOrder(s: Pool, a: Action, l: Log, first: seq<nat>)
    requires Conserved(s) && Legal(a) && InOrder(s, l, first) && a.ParserKeeps?
    ensures InOrder(Step(s, a), Note(s, a, l), first)
  {
    if s.parser.Some? {
      var d := Kept(s, a);
      var r := L.Step(s.arrays, d);
      AssembledNext(l.kept, d);
      KeptInOrder(s, l, first, d, r.st, Ids(r.freed));
    }
  }

  lemma {:induction false} KeptInOrder(s: Pool, l: Log, first: seq<nat>, d: L.Datagram, arrays: L.State,
                                       freed: seq<nat>)
    requires InOrder(s, l, first) && (forall k :: 0 <= k < |l.kept + [d]| ==> L.Legal((l.kept + [d])[k]))
    requires arrays == Assembled(l.kept + [d])
    ensures InOrder(s.(parser := None, arrays := arrays, returning := s.returning + freed),
                    l.(released := l.released + freed, kept := l.kept + [d]), first)
  {
    assert l.given + (s.returning + freed) == l.released + freed;
  }

  lemma {:induction false} AssembledNext(ds: seq<L.Datagram>, d: L.Datagram)
    requires (forall k :: 0 <= k < |ds| ==> L.Legal(ds[k])) && L.Legal(d)
    ensures forall k :: 0 <= k < |ds + [d]| ==> L.Legal((ds + [d])[k])
    ensures Assembled(ds + [d]) == L.Step(Assembled(ds), d).st
  {
    assert (ds + [d])[..|ds|] == ds;
  }

  /** In every interleaving from the start, the parser gets the buffers that
      the reader put, in that order and none left out, the reader gets those
      the parser gave back, after the preallocated ones, and the arrays of
      protocol v1 are what the datagrams kept make of them. */
  lemma {:induction false} RunInOrder(s: Pool, actions: seq<Action>, l: Log, first: seq<nat>)
    requires Conserved(s) && (forall k :: 0 <= k < |actions| ==> Legal(actions[k])) && InOrder(s, l, first)
    ensures InOrder(Run(s, actions), RunNotes(s, actions, l), first)
    decreases |actions|
  {
    if actions != [] {
      var a := actions[0];
      StepConserves(s, a);
      if a.ParserKeeps? {
        KeepingKeepsOrder(s, a, l, first);
      } else if a.ReaderGet? || a.ReaderPut? {
        ReaderKeepsOrder(s, a, l, first);
      } else {
        ParserKeepsOrder(s, a, l, first);
      }
      RunInOrder(Step(s, a), actions[1..], Note(s, a, l), first);
    }
  }

  lemma {:induction false} RunFromStartInOrder(preallocated: nat, actions: seq<Action>)
    requires preallocated <= PREALLOCATED && forall k :: 0 <= k < |actions| ==> Legal(actions[k])
    ensures L.Valid(Start(preallocated).arrays)
    ensures InOrder(Run(Start(preallocated), actions), RunNotes(Start(preallocated), actions, NOTHING_YET),
                    seq(preallocated, i => i))
  {
    StartConserved(preallocated);
    RunInOrder(Start(preallocated), actions, NOTHING_YET, seq(preallocated, i => i));
  }

  /** A parser with nothing in hand takes up the first buffer put and not taken
      up yet. A reader with none takes up the first that is free and makes a new
      one only if there is none; with a datagram in it, it puts it down. */
  lemma {:induction false} NextInOrder(s: Pool, l: Log, first: seq<nat>, allocates: bool)
    requires Conserved(s) && InOrder(s, l, first)
    ensures s.parser.None? && s.returning == [] && |l.taken| < |l.received| ==>
              Step(s, ParserGet).parser == Some(l.received[|l.taken|])
    ensures s.reader.None? && |l.reused| < |first + l.given| ==>
              var n := Step(s, ReaderGet(allocates));
              n.reader == Some((first + l.given)[|l.reused|]) && n.made == s.made
    ensures s.reader.None? && |l.reused| == |first + l.given| ==>
              var n := Step(s, ReaderGet(allocates));
              if allocates && s.made < QUEUE_LEN then n.reader == Some(s.made) else n == s
    ensures s.reader.Some? ==>
              var n := Step(s, ReaderPut);
              n.reader == None && n.toParse == s.toParse + [s.reader.value]
  {
    assert |l.taken| < |l.received| ==> l.received[|l.taken|] == s.toParse[0];
    assert |l.reused| < |first + l.given| ==> (first + l.given)[|l.reused|] == s.toFill[0];
    if s.reader.Some? {
      ParseQueueHasRoom(s);
    }
  }

  /** The rings never hold more than their length, so that the sequences here
      are what the ring buffers of CircularBuffer contain. */
  lemma {:induction false} RingsFit(s: Pool)
    requires Conserved(s)
    ensures |s.toFill| <= QUEUE_LEN && |s.toParse| <= QUEUE_LEN
  {
    forall id: nat
      ensures Occurs(s.toFill, id) <= if id < s.made then 1 else 0
      ensures Occurs(s.toParse, id) <= if id < s.made then 1 else 0
    {
      assert Places(s, id) == if id < s.made then 1 else 0;
    }
    DistinctFit(s.toFill, s.made);
    DistinctFit(s.toParse, s.made);
  }
}
