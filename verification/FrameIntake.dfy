/** Taking in a datagram (protocol v2): which packets are stored and where,
    which frame has to make room, and which datagrams end a frame. */
module FrameIntake {
  import opened FrameTable
  import opened Types

  /** Slot k is in use for the frame. */
  predicate Holds(t: Table, k: nat, frameCounter: nat)
    requires k < |t|
  {
    t[k].timestamp != 0 && t[k].frameCounter == frameCounter
  }

  predicate HeldSomewhere(t: Table, frameCounter: nat) {
    exists k :: 0 <= k < |t| && Holds(t, k, frameCounter)
  }

  /** At most one slot is in use for a frame; so it is in every run
      (FrameCounts.ReachableCounts). */
  predicate HeldOnce(t: Table, frameCounter: nat) {
    forall j, k :: 0 <= j < k < |t| ==> !(Holds(t, j, frameCounter) && Holds(t, k, frameCounter))
  }

  predicate SomeUnused(t: Table) {
    exists k :: 0 <= k < |t| && t[k].timestamp == 0
  }

  predicate OthersUnchanged(t: Table, i: nat, u: Table) {
    |u| == |t| && forall k :: 0 <= k < |t| && k != i ==> u[k] == t[k]
  }

  lemma {:induction false} FindsIt(t: Table, frameCounter: nat, k: nat)
    requires k < |t| && Holds(t, k, frameCounter) && HeldOnce(t, frameCounter)
    ensures Find(t, frameCounter, |t|) == Some(k)
  {
    FindMeans(t, frameCounter, |t|);
    var r := Find(t, frameCounter, |t|);
    if r.Some? {
      assert Holds(t, r.value, frameCounter);
    }
  }

  lemma {:induction false} FindsNone(t: Table, frameCounter: nat)
    requires !HeldSomewhere(t, frameCounter)
    ensures Find(t, frameCounter, |t|).None?
  {
    FindMeans(t, frameCounter, |t|);
    forall k | 0 <= k < |t| ensures !(Active(t[k]) && t[k].frameCounter == frameCounter) {
      assert !Holds(t, k, frameCounter);
    }
  }

  lemma {:induction false} NoneElsewhere(t: Table, frameCounter: nat, k: nat)
    requires k < |t| && Holds(t, k, frameCounter) && HeldOnce(t, frameCounter)
    ensures !HeldSomewhere(t[k := Retire(t[k])], frameCounter)
  {
    var u := t[k := Retire(t[k])];
    forall j | 0 <= j < |u| ensures !Holds(u, j, frameCounter) {
      assert j != k ==> u[j] == t[j] && !Holds(t, j, frameCounter);
    }
  }

  // ---- A packet of a frame that has a slot ----

  /** It is stored unless it has been announced as not available; if it
      contradicts the frame, the frame is given up, and nothing else changes. */
  lemma {:induction false} KnownFrame(t: Table, k: nat, p: Packet, now: nat, later: nat, buffer: seq<byte>)
    requires AllWellFormed(t) && Legal(p) && |buffer| == p.frameLen && 0 < now
    requires k < |t| && Holds(t, k, p.frameCounter) && HeldOnce(t, p.frameCounter)
    requires (p.position + |p.data|) % UINT32_RANGE <= p.frameLen && p.packetCounter < p.total
    ensures var (u, i) := Receive(t, p, now, later, buffer);
            && OthersUnchanged(t, k, u)
            && (if p.frameLen != t[k].frameSize || p.total != t[k].total then
                  i == None && !HeldSomewhere(u, p.frameCounter)
                else if t[k].sizes[p.packetCounter] == NDA then i == None && u[k] == t[k]
                else i == Some(k) && Holds(u, k, p.frameCounter) && Stored(t[k], p, later, u[k]))
  {
    FindsIt(t, p.frameCounter, k);
    NoneElsewhere(t, p.frameCounter, k);
  }

  /** The packet's bytes, place and size are noted, and when it came; what else
      was received of the frame stays, and so do its age and its retries. */
  predicate Stored(s: Slot, p: Packet, later: nat, r: Slot)
  {
    && p.packetCounter < |s.sizes| == |s.starts| == |r.sizes| == |r.starts| && |r.frame| == |s.frame|
    && r.sizes[p.packetCounter] == |p.data| && r.starts[p.packetCounter] == p.position
    && (forall k :: 0 <= k < |p.data| && p.position + k < |r.frame| ==> r.frame[p.position + k] == p.data[k])
    && (forall k :: 0 <= k < |s.sizes| && k != p.packetCounter ==>
          r.sizes[k] == s.sizes[k] && r.starts[k] == s.starts[k])
    && (forall k :: 0 <= k < |s.frame| && !(p.position <= k < p.position + |p.data|) ==> r.frame[k] == s.frame[k])
    && r.timeLast == later && r.timestamp == s.timestamp && r.frameCounter == s.frameCounter
    && r.retryTime == s.retryTime && r.retryCount == s.retryCount
  }

  // ---- A packet of a frame that has none ----

  /** A packet sent again does not start a frame. */
  lemma {:induction false} LateRetransmission(t: Table, p: Packet, now: nat, later: nat, buffer: seq<byte>)
    requires AllWellFormed(t) && Legal(p) && |buffer| == p.frameLen && 0 < now
    requires !HeldSomewhere(t, p.frameCounter) && p.resent
    ensures Receive(t, p, now, later, buffer) == (t, None)
  {
    FindsNone(t, p.frameCounter);
  }

  predicate Begun(p: Packet, now: nat, later: nat, r: Slot) {
    && r.frameSize == p.frameLen && r.total == p.total && r.got == 1 && r.nda == 0
    && p.packetCounter < |r.sizes| == |r.starts|
    && (forall k :: 0 <= k < |r.sizes| ==> r.sizes[k] == if k == p.packetCounter then |p.data| else 0)
    && r.starts[p.packetCounter] == p.position
    && (forall k :: 0 <= k < |p.data| && p.position + k < |r.frame| ==> r.frame[p.position + k] == p.data[k])
    && r.timestamp == now && r.timeLast == later && r.retryTime == now && r.retryCount == 0
  }

  lemma {:induction false} BeginsSlot(s: Slot, p: Packet, now: nat, later: nat, buffer: seq<byte>)
    requires WellFormed(s) && Legal(p) && |buffer| == p.frameLen && 0 < p.frameLen && p.packetCounter < p.total
    ensures var made := Init(s, now, p.frameCounter, p.frameLen, p.total, buffer);
            && made.Some? && made.value.frameCounter == p.frameCounter && made.value.timestamp == now
            && made.value.frameSize == p.frameLen && made.value.total == p.total
            && p.packetCounter < |made.value.sizes| == |made.value.starts| && made.value.sizes[p.packetCounter] == 0
            && var r := Store(made.value, p.packetCounter, p.position, p.data, later);
               Begun(p, now, later, r) && r.frameCounter == p.frameCounter
  {
  }

  /** The slot picked for a new frame. */
  predicate MakesRoom(t: Table, i: nat)
    requires i < |t|
  {
    if SomeUnused(t) then t[i].timestamp == 0 else forall k :: 0 <= k < |t| ==> t[i].timestamp <= t[k].timestamp
  }

  lemma {:induction false} PicksSlot(t: Table) returns (i: nat)
    requires t != [] && forall k :: 0 <= k < |t| ==> t[k].timestamp < UINT64_MAX
    ensures i < |t| && MakesRoom(t, i)
    ensures (if Free(t, |t|).Some? then Free(t, |t|) else Oldest(t, |t|)) == Some(i)
  {
    FreeMeans(t, |t|);
    OldestMeans(t, |t|);
    if Free(t, |t|).Some? {
      i := Free(t, |t|).value;
      assert t[i].timestamp == 0;
    } else {
      assert Active(t[0]);
      i := Oldest(t, |t|).value;
    }
  }

  /** Any other packet does: in a slot not in use, or, if all are in use, in
      that of the oldest frame; no other frame is touched, and of the new one
      nothing but this packet has been received and nothing been requested. */
  lemma {:induction false} NewFrame(t: Table, p: Packet, now: nat, later: nat, buffer: seq<byte>)
    requires AllWellFormed(t) && Legal(p) && |buffer| == p.frameLen && 0 < now
    requires !HeldSomewhere(t, p.frameCounter) && !p.resent
    requires (p.position + |p.data|) % UINT32_RANGE <= p.frameLen && p.packetCounter < p.total && 0 < p.frameLen
    requires t != [] && forall k :: 0 <= k < |t| ==> t[k].timestamp < UINT64_MAX
    ensures var (u, i) := Receive(t, p, now, later, buffer);
            && i.Some? && OthersUnchanged(t, i.value, u) && MakesRoom(t, i.value)
            && Holds(u, i.value, p.frameCounter) && Begun(p, now, later, u[i.value])
  {
    FindsNone(t, p.frameCounter);
    var i := PicksSlot(t);
    BeginsSlot(t[i], p, now, later, buffer);
    var made := Init(t[i], now, p.frameCounter, p.frameLen, p.total, buffer).value;
    assert Claim(t, p, now, buffer) == Some((t[i := made], i));
  }

  // ---- An NDA ----

  /** A list that starts with packet 0 gives the frame up, whatever else it
      lists; no other frame is touched. */
  lemma {:induction false} FirstPacketGone(t: Table, k: nat, frameCounter: nat, counters: seq<nat>)
    requires k < |t| && Holds(t, k, frameCounter) && HeldOnce(t, frameCounter)
    ensures var (u, i) := ReceiveNda(t, frameCounter, 0, counters);
            i == None && OthersUnchanged(t, k, u) && !HeldSomewhere(u, frameCounter)
  {
    FindsIt(t, frameCounter, k);
    NoneElsewhere(t, frameCounter, k);
  }

  lemma {:induction false} UnknownNda(t: Table, frameCounter: nat, first: nat, counters: seq<nat>)
    requires !HeldSomewhere(t, frameCounter)
    ensures ReceiveNda(t, frameCounter, first, counters) == (t, None)
  {
    FindsNone(t, frameCounter);
  }

  /** How many entries of the list come before the first that is no packet of
      the frame. */
  predicate GoodEntries(s: Slot, counters: seq<nat>, n: nat) {
    && n <= |counters| && (forall j :: 0 <= j < n ==> counters[j] < s.total)
    && (n < |counters| ==> counters[n] >= s.total)
  }

  /** Exactly the packets listed up to there are marked, each entry is counted,
      and nothing else changes. */
  predicate Marked(s: Slot, counters: seq<nat>, n: nat, r: Slot)
    requires n <= |counters|
  {
    && |r.sizes| == |s.sizes| && r == s.(nda := (s.nda + n) % UINT16_RANGE, sizes := r.sizes)
    && forall k :: 0 <= k < |s.sizes| ==> r.sizes[k] == if k in counters[..n] then NDA else s.sizes[k]
  }

  lemma {:induction false} ListedAreMarked(s: Slot, counters: seq<nat>, n: nat)
    requires s.total <= |s.sizes| && s.nda < UINT16_RANGE && GoodEntries(s, counters, n)
    ensures Marked(s, counters, n, MarkNda(s, counters))
    decreases n
  {
    if n > 0 {
      var r := s.(nda := (s.nda + 1) % UINT16_RANGE, sizes := s.sizes[counters[0] := NDA]);
      assert GoodEntries(r, counters[1..], n - 1);
      ListedAreMarked(r, counters[1..], n - 1);
      assert counters[..n] == [counters[0]] + counters[1..][..n - 1];
    }
  }

  /** Any other list marks what it lists in the frame's slot and nowhere else. */
  lemma {:induction false} ListTakenIn(t: Table, k: nat, frameCounter: nat, first: nat, counters: seq<nat>, n: nat)
    requires AllWellFormed(t) && k < |t| && Holds(t, k, frameCounter) && HeldOnce(t, frameCounter)
    requires first != 0 && GoodEntries(t[k], counters, n)
    ensures var (u, i) := ReceiveNda(t, frameCounter, first, counters);
            i == Some(k) && OthersUnchanged(t, k, u) && Marked(t[k], counters, n, u[k])
  {
    FindsIt(t, frameCounter, k);
    ListedAreMarked(t[k], counters, n);
  }
}
