/** The table of frames under assembly (protocol v2): slot operations of
    sdk/bta_helper.c and the selection, packet, NDA and timeout code of
    parseFramesRunFunction in sdk/bta_eth.c, as functions on slot values.
    FrameParser.dfy holds the code in its own imperative form. */
module FrameTable {
  import Counting
  import opened Types

  /** The entry of `sizes` for a packet the sender no longer has. */
  const NDA: nat := 0xFFFF

  /** One frame under assembly; it is in use while its timestamp is not 0.
      `sizes[k]` is 0 while packet k is missing. */
  datatype Slot = Slot(timestamp: nat, frameCounter: nat, frameSize: nat, frame: seq<byte>,
                       got: nat, nda: nat, total: nat, starts: seq<nat>, sizes: seq<nat>,
                       timeLast: nat, retryTime: nat, retryCount: nat)

  type Table = seq<Slot>

  predicate Active(s: Slot) {
    s.timestamp != 0
  }

  /** The sizes of the buffers fit the frame. */
  predicate WellFormed(s: Slot) {
    && |s.starts| == |s.sizes|
    && s.got < UINT16_RANGE && s.nda < UINT16_RANGE
    && |s.frame| < UINT32_RANGE
    && (Active(s) ==> 0 < s.total < UINT16_RANGE && s.total <= |s.sizes| && 0 < s.frameSize <= |s.frame|)
  }

  predicate AllWellFormed(t: Table) {
    forall i :: 0 <= i < |t| ==> WellFormed(t[i])
  }

  function Zeros(n: nat): (z: seq<nat>)
    ensures |z| == n && forall k :: 0 <= k < n ==> z[k] == 0
  {
    seq(n, _ => 0)
  }

  // ---- One slot ----

  const EMPTY: Slot := Slot(0, 0, 0, [], 0, 0, 0, [], [], 0, 0, 0)

  function Retire(s: Slot): Slot {
    s.(timestamp := 0)
  }

  /** Buffers only grow; `buffer` is what a newly allocated frame buffer holds. */
  function Init(s: Slot, now: nat, frameCounter: nat, frameLen: nat, total: nat, buffer: seq<byte>): Option<Slot>
  {
    if frameLen == 0 || total == 0 then None
    else
      var n := if total > |s.sizes| then total else |s.sizes|;
      Some(Slot(now, frameCounter, frameLen, if frameLen > |s.frame| then buffer else s.frame,
                0, 0, total, Zeros(n), Zeros(n), now, now, 0))
  }

  /** What copying `data` to `position` does to the buffer; bytes that fall
      beyond its end are written elsewhere. */
  function Write(buffer: seq<byte>, position: nat, data: seq<byte>): (r: seq<byte>)
    ensures |r| == |buffer|
    ensures forall k :: 0 <= k < |r| ==>
              r[k] == if position <= k < position + |data| then data[k - position] else buffer[k]
  {
    if position >= |buffer| then buffer
    else if position + |data| > |buffer| then buffer[..position] + data[..|buffer| - position]
    else buffer[..position] + data + buffer[position + |data|..]
  }

  /** A packet already received is replaced and not counted twice. */
  function Store(s: Slot, packetCounter: nat, position: nat, data: seq<byte>, now: nat): Slot
    requires packetCounter < |s.sizes| == |s.starts|
  {
    var kept := if s.sizes[packetCounter] != 0 then (s.got - 1) % UINT16_RANGE else s.got;
    s.(frame := Write(s.frame, position, data),
       starts := s.starts[packetCounter := position],
       sizes := s.sizes[packetCounter := |data|],
       got := (kept + 1) % UINT16_RANGE,
       timeLast := now)
  }

  /** Marks the listed packets as not available. The list pointer does not
      move past a counter that is out of range, so that one and everything
      after it has no effect. */
  function MarkNda(s: Slot, counters: seq<nat>): Slot
    decreases |counters|
  {
    if counters == [] || counters[0] >= s.total || counters[0] >= |s.sizes| then s
    else
      MarkNda(s.(nda := (s.nda + 1) % UINT16_RANGE, sizes := s.sizes[counters[0] := NDA]), counters[1..])
  }

  predicate Complete(s: Slot) {
    s.got + s.nda == s.total
  }

  // ---- Selection over the table ----

  /** getOldest over the first n slots: the first of the oldest frames. The
      largest timestamp there is counts as none. */
  function Oldest(t: Table, n: nat): (r: Option<nat>)
    requires n <= |t|
    ensures r.Some? ==> r.value < n && Active(t[r.value])
  {
    if n == 0 then None
    else
      var r := Oldest(t, n - 1);
      var oldest := if r.Some? then t[r.value].timestamp else UINT64_MAX;
      if Active(t[n - 1]) && t[n - 1].timestamp < oldest then Some(n - 1) else r
  }

  /** getOlderThan over the first n slots: the last of the oldest frames not
      younger than `bound`. */
  function OlderThan(t: Table, bound: nat, n: nat): (r: Option<nat>)
    requires n <= |t|
    ensures r.Some? ==> r.value < n && Active(t[r.value]) && t[r.value].timestamp <= bound
  {
    if n == 0 then None
    else
      var r := OlderThan(t, bound, n - 1);
      var oldest := if r.Some? then t[r.value].timestamp else bound;
      if Active(t[n - 1]) && t[n - 1].timestamp <= oldest then Some(n - 1) else r
  }

  /** getNewestBeforeThis over the first n slots. */
  function NewestBefore(t: Table, bound: nat, n: nat): (r: Option<nat>)
    requires n <= |t|
    ensures r.Some? ==> r.value < n && Active(t[r.value]) && t[r.value].timestamp < bound
  {
    if n == 0 then None
    else
      var r := NewestBefore(t, bound, n - 1);
      var newest := if r.Some? then t[r.value].timestamp else 0;
      if newest < t[n - 1].timestamp < bound then Some(n - 1) else r
  }

  /** The first slot in use for `frameCounter`. */
  function Find(t: Table, frameCounter: nat, n: nat): (r: Option<nat>)
    requires n <= |t|
    ensures r.Some? ==> r.value < n && Active(t[r.value]) && t[r.value].frameCounter == frameCounter
  {
    if n == 0 then None
    else
      var r := Find(t, frameCounter, n - 1);
      if r.None? && Active(t[n - 1]) && t[n - 1].frameCounter == frameCounter then Some(n - 1) else r
  }

  /** The last slot not in use. */
  function Free(t: Table, n: nat): (r: Option<nat>)
    requires n <= |t|
    ensures r.Some? ==> r.value < n && !Active(t[r.value])
  {
    if n == 0 then None
    else if !Active(t[n - 1]) then Some(n - 1)
    else Free(t, n - 1)
  }

  lemma {:induction false} OldestMeans(t: Table, n: nat)
    requires n <= |t|
    ensures Oldest(t, n).None? <==> forall i :: 0 <= i < n ==> !(Active(t[i]) && t[i].timestamp < UINT64_MAX)
    ensures Oldest(t, n).Some? ==>
              var r := Oldest(t, n).value;
              forall i :: 0 <= i < n && Active(t[i]) ==>
                t[r].timestamp <= t[i].timestamp && (i < r ==> t[r].timestamp < t[i].timestamp)
  {
    if n > 0 {
      OldestMeans(t, n - 1);
    }
  }

  lemma {:induction false} OlderThanMeans(t: Table, bound: nat, n: nat)
    requires n <= |t|
    ensures OlderThan(t, bound, n).None? <==> forall i :: 0 <= i < n ==> !(Active(t[i]) && t[i].timestamp <= bound)
    ensures OlderThan(t, bound, n).Some? ==>
              var r := OlderThan(t, bound, n).value;
              forall i :: 0 <= i < n && Active(t[i]) ==>
                t[r].timestamp <= t[i].timestamp && (i > r ==> t[r].timestamp < t[i].timestamp)
  {
    if n > 0 {
      OlderThanMeans(t, bound, n - 1);
    }
  }

  lemma {:induction false} NewestBeforeMeans(t: Table, bound: nat, n: nat)
    requires n <= |t|
    ensures NewestBefore(t, bound, n).None? <==> forall i :: 0 <= i < n ==> !(Active(t[i]) && t[i].timestamp < bound)
    ensures NewestBefore(t, bound, n).Some? ==>
              var r := NewestBefore(t, bound, n).value;
              forall i :: 0 <= i < n && Active(t[i]) && t[i].timestamp < bound ==> t[i].timestamp <= t[r].timestamp
  {
    if n > 0 {
      NewestBeforeMeans(t, bound, n - 1);
    }
  }

  lemma {:induction false} FindMeans(t: Table, frameCounter: nat, n: nat)
    requires n <= |t|
    ensures Find(t, frameCounter, n).None? <==>
            forall i :: 0 <= i < n ==> !(Active(t[i]) && t[i].frameCounter == frameCounter)
    ensures Find(t, frameCounter, n).Some? ==>
            forall i :: 0 <= i < Find(t, frameCounter, n).value ==> !(Active(t[i]) && t[i].frameCounter == frameCounter)
  {
    if n > 0 {
      FindMeans(t, frameCounter, n - 1);
    }
  }

  lemma {:induction false} FreeMeans(t: Table, n: nat)
    requires n <= |t|
    ensures Free(t, n).None? <==> forall i :: 0 <= i < n ==> Active(t[i])
    ensures Free(t, n).Some? ==> forall i :: Free(t, n).value < i < n ==> Active(t[i])
  {
    if n > 0 {
      FreeMeans(t, n - 1);
    }
  }

  // ---- Handing frames on, oldest first ----

  function ActiveCount(t: Table): nat {
    Counting.Times<Slot>(t, Active)
  }

  lemma {:induction false} RetireCounts(t: Table, i: nat)
    requires i < |t| && Active(t[i])
    ensures ActiveCount(t[i := Retire(t[i])]) == ActiveCount(t) - 1
  {
    Counting.TimesUpdate<Slot>(t, i, Retire(t[i]), Active);
  }

  /** The drain loop: hands on the oldest frame not younger than frame i
      until frame i itself is gone. The second result is what was handed on. */
  function Drain(t: Table, i: nat): (Table, seq<Slot>)
    requires i < |t|
    decreases ActiveCount(t)
  {
    var r := OlderThan(t, t[i].timestamp, |t|);
    if r.None? then (t, [])
    else
      RetireCounts(t, r.value);
      var (rest, out) := Drain(t[r.value := Retire(t[r.value])], i);
      (rest, [t[r.value]] + out)
  }

  predicate Ordered(out: seq<Slot>) {
    forall i, j :: 0 <= i < j < |out| ==> out[i].timestamp <= out[j].timestamp
  }

  /** `u` is `t` with some slots retired. */
  predicate RetiredFrom(t: Table, u: Table) {
    |u| == |t| && forall k :: 0 <= k < |t| ==> u[k] == t[k] || u[k] == Retire(t[k])
  }

  predicate NotBefore(t: seq<Slot>, m: nat) {
    forall k :: 0 <= k < |t| && Active(t[k]) ==> m <= t[k].timestamp
  }

  /** What is handed on is no older than anything that was in use. */
  lemma {:induction false} DrainNotBefore(t: Table, i: nat, m: nat)
    requires i < |t| && NotBefore(t, m)
    ensures forall k :: 0 <= k < |Drain(t, i).1| ==> Active(Drain(t, i).1[k]) && m <= Drain(t, i).1[k].timestamp
    decreases ActiveCount(t)
  {
    var o := OlderThan(t, t[i].timestamp, |t|);
    if o.Some? {
      RetireCounts(t, o.value);
      DrainNotBefore(t[o.value := Retire(t[o.value])], i, m);
    }
  }

  /** Every frame handed on was in use, and exactly those are retired. */
  lemma {:induction false} DrainConserves(t: Table, i: nat)
    requires i < |t|
    ensures var (u, out) := Drain(t, i);
            RetiredFrom(t, u) && ActiveCount(u) + |out| == ActiveCount(t)
    ensures forall k :: 0 <= k < |Drain(t, i).1| ==> Drain(t, i).1[k] in t
    decreases ActiveCount(t)
  {
    var o := OlderThan(t, t[i].timestamp, |t|);
    if o.Some? {
      var r := o.value;
      RetireCounts(t, r);
      var v := t[r := Retire(t[r])];
      DrainConserves(v, i);
      var (u, out) := Drain(v, i);
      forall k | 0 <= k < |out| ensures out[k] in t {
        DrainNotBefore(v, i, 0);
        var m :| 0 <= m < |v| && v[m] == out[k];
        assert v[m] == t[m];
      }
    }
  }

  /** Draining for an active frame ends with that frame, goes from old to
      young, and leaves nothing strictly older in the table. */
  lemma {:induction false} DrainMeans(t: Table, i: nat)
    requires i < |t| && Active(t[i])
    ensures var (u, out) := Drain(t, i);
            out != [] && out[|out| - 1] == t[i] && Ordered(out)
    ensures var (u, out) := Drain(t, i);
            |u| == |t| && !Active(u[i]) && NotBefore(u, t[i].timestamp)
    decreases ActiveCount(t)
  {
    OlderThanMeans(t, t[i].timestamp, |t|);
    var r := OlderThan(t, t[i].timestamp, |t|).value;
    RetireCounts(t, r);
    var v := t[r := Retire(t[r])];
    if r == i {
      OlderThanMeans(v, 0, |v|);
      assert Drain(v, i) == (v, []);
    } else {
      DrainMeans(v, i);
      DrainNotBefore(v, i, t[r].timestamp);
    }
  }

  // ---- A data packet ----

  /** A data packet that passed the checksum and length checks; `resent` is
      flag 0x08. */
  datatype Packet = Packet(frameCounter: nat, packetCounter: nat, total: nat, frameLen: nat,
                           position: nat, data: seq<byte>, resent: bool)

  predicate Legal(p: Packet) {
    && p.frameCounter < UINT16_RANGE && p.packetCounter < NDA && p.total < UINT16_RANGE
    && 0 < |p.data| < NDA
    && p.frameLen < UINT32_RANGE && p.position < UINT32_RANGE
  }

  /** The length test, whose sum is computed in 32 bits. */
  predicate FitsFrame(p: Packet) {
    (p.position + |p.data|) % UINT32_RANGE <= p.frameLen
  }

  /** The slot for a packet: the one in use for its frame, or a free one, or
      that of the oldest frame, made ready. A late retransmission gets none. */
  function Claim(t: Table, p: Packet, now: nat, buffer: seq<byte>): (r: Option<(Table, nat)>)
    ensures r.Some? ==> |r.value.0| == |t| && r.value.1 < |t|
  {
    var found := Find(t, p.frameCounter, |t|);
    if found.Some? then Some((t, found.value))
    else if p.resent then None
    else
      var free := Free(t, |t|);
      var chosen := if free.Some? then free else Oldest(t, |t|);
      if chosen.None? then None
      else
        var made := Init(t[chosen.value], now, p.frameCounter, p.frameLen, p.total, buffer);
        if made.None? then None else Some((t[chosen.value := made.value], chosen.value))
  }

  /** The packet goes into slot i, unless it contradicts the frame or comes
      too late; the result names the slot if it was stored. */
  function Place(u: Table, i: nat, p: Packet, later: nat): (r: (Table, Option<nat>))
    requires i < |u| && WellFormed(u[i]) && Active(u[i]) && p.packetCounter < p.total
    ensures |r.0| == |u| && (r.1.Some? ==> r.1.value < |u|)
  {
    if p.frameLen != u[i].frameSize || p.total != u[i].total then (u[i := Retire(u[i])], None)
    else if u[i].sizes[p.packetCounter] == NDA then (u, None)
    else (u[i := Store(u[i], p.packetCounter, p.position, p.data, later)], Some(i))
  }

  /** The packet's effect on the table, and the slot it was stored in. */
  function Receive(t: Table, p: Packet, now: nat, later: nat, buffer: seq<byte>): (r: (Table, Option<nat>))
    requires AllWellFormed(t) && Legal(p) && |buffer| == p.frameLen && 0 < now
    ensures |r.0| == |t| && (r.1.Some? ==> r.1.value < |t|)
  {
    if !FitsFrame(p) || p.packetCounter >= p.total then (t, None)
    else
      var claim := Claim(t, p, now, buffer);
      if claim.None? then (t, None)
      else
        ClaimKeepsWellFormed(t, p, now, buffer);
        Place(claim.value.0, claim.value.1, p, later)
  }

  lemma {:induction false} ClaimKeepsWellFormed(t: Table, p: Packet, now: nat, buffer: seq<byte>)
    requires AllWellFormed(t) && Legal(p) && |buffer| == p.frameLen && 0 < now
    ensures var claim := Claim(t, p, now, buffer);
            claim.Some? ==>
              && AllWellFormed(claim.value.0)
              && Active(claim.value.0[claim.value.1])
              && claim.value.0[claim.value.1].frameCounter == p.frameCounter
  {
  }

  lemma {:induction false} MarkNdaKeepsWellFormed(s: Slot, counters: seq<nat>)
    requires WellFormed(s)
    ensures var m := MarkNda(s, counters);
            WellFormed(m) && m == s.(nda := m.nda, sizes := m.sizes) && |m.sizes| == |s.sizes|
    decreases |counters|
  {
    if counters != [] && counters[0] < s.total && counters[0] < |s.sizes| {
      MarkNdaKeepsWellFormed(s.(nda := (s.nda + 1) % UINT16_RANGE, sizes := s.sizes[counters[0] := NDA]),
        counters[1..]);
    }
  }

  lemma {:induction false} ReceiveKeepsWellFormed(t: Table, p: Packet, now: nat, later: nat, buffer: seq<byte>)
    requires AllWellFormed(t) && Legal(p) && |buffer| == p.frameLen && 0 < now
    ensures AllWellFormed(Receive(t, p, now, later, buffer).0)
    ensures Receive(t, p, now, later, buffer).1.Some? ==>
              var r := Receive(t, p, now, later, buffer);
              Active(r.0[r.1.value]) && p.packetCounter < r.0[r.1.value].total
  {
    ClaimKeepsWellFormed(t, p, now, buffer);
  }

  /** The bytes of a packet that is stored stay within its frame, and within
      the buffer, exactly when its position and length add up to less than 32
      bits hold: the length test alone does not see to it. */
  lemma {:induction false} StoredInsideIff(t: Table, p: Packet, now: nat, later: nat, buffer: seq<byte>)
    requires AllWellFormed(t) && Legal(p) && |buffer| == p.frameLen && 0 < now
    requires Receive(t, p, now, later, buffer).1.Some?
    ensures var (u, i) := Receive(t, p, now, later, buffer);
            && FitsFrame(p)
            && (p.position + |p.data| <= u[i.value].frameSize <==> p.position + |p.data| < UINT32_RANGE)
            && (p.position + |p.data| <= |u[i.value].frame| <==> p.position + |p.data| < UINT32_RANGE)
  {
    ClaimKeepsWellFormed(t, p, now, buffer);
  }

  /** Position and length of this packet add up to 16. */
  const WRAPPING: Packet := Packet(1, 0, 1, 0x20, 0xFFFF_FFF0, seq(0x20, _ => 0), false)

  /** As the first packet of all it is stored, and all its bytes go elsewhere. */
  lemma {:induction false} WrappingIsStored(t: Table, now: nat, later: nat, buffer: seq<byte>)
    requires t != [] && forall i :: 0 <= i < |t| ==> t[i] == EMPTY
    requires |buffer| == WRAPPING.frameLen && 0 < now
    ensures Legal(WRAPPING)
    ensures var (u, i) := Receive(t, WRAPPING, now, later, buffer);
            i.Some? && u[i.value].got == 1 && |u[i.value].frame| <= WRAPPING.position
  {
    FindMeans(t, WRAPPING.frameCounter, |t|);
    FreeMeans(t, |t|);
    assert !Active(t[0]);
    var i := Free(t, |t|).value;
    var made := Init(t[i], now, WRAPPING.frameCounter, WRAPPING.frameLen, WRAPPING.total, buffer).value;
    assert Claim(t, WRAPPING, now, buffer) == Some((t[i := made], i));
    assert made.sizes[0] == 0;
  }

  // ---- An NDA packet ----

  /** `first` is the first listed counter; a list that starts with packet 0
      gives the frame up. */
  function ReceiveNda(t: Table, frameCounter: nat, first: nat, counters: seq<nat>): (r: (Table, Option<nat>))
    ensures |r.0| == |t| && (r.1.Some? ==> r.1.value < |t|)
  {
    var found := Find(t, frameCounter, |t|);
    if found.None? then (t, None)
    else if first == 0 then (t[found.value := Retire(t[found.value])], None)
    else (t[found.value := MarkNda(t[found.value], counters)], found)
  }

  // ---- Gaps ----

  /** Where the run of missing packets that ends with packet `last` begins. */
  function GapStart(sizes: seq<nat>, last: nat): (r: nat)
    requires last < |sizes|
    ensures r <= last
  {
    if last == 0 || sizes[last - 1] != 0 then last else GapStart(sizes, last - 1)
  }

  /** The gap just before packet `packetCounter`, if there is one. */
  function OwnGap(sizes: seq<nat>, packetCounter: nat): (r: Option<(nat, nat)>)
    requires packetCounter <= |sizes|
    ensures r.Some? ==> r.value.0 <= r.value.1 < |sizes|
  {
    if packetCounter > 0 && sizes[packetCounter - 1] == 0
    then Some((GapStart(sizes, packetCounter - 1), packetCounter - 1))
    else None
  }

  /** Reading entry k, without a test that there is one; `beyond` is what
      stands there otherwise. */
  function Entry(sizes: seq<nat>, k: nat, beyond: nat): nat {
    if k < |sizes| then sizes[k] else beyond
  }

  /** The gap requested at the end of the previous frame. The test for it
      looks at packet `total - 1`, with the total of the current frame. */
  function PreviousGap(previous: Slot, total: nat, beyond: nat): (r: Option<(nat, nat)>)
    requires 0 < total && 0 < previous.total <= |previous.sizes|
    ensures r.Some? ==> r.value.0 <= r.value.1 < |previous.sizes| && r.value.1 < previous.total
  {
    if Entry(previous.sizes, total - 1, beyond) == 0
    then Some((GapStart(previous.sizes, previous.total - 1), previous.total - 1))
    else None
  }

  /** Whether storing a packet makes the previous frame worth a look. */
  predicate LooksBack(sizes: seq<nat>, packetCounter: nat)
    requires packetCounter <= |sizes|
  {
    packetCounter == 0 || (OwnGap(sizes, packetCounter).Some? && OwnGap(sizes, packetCounter).value.0 == 0)
  }

  // ---- Steps of the parser thread ----

  datatype Config = Config(mode: nat, waitTimeout: real, interval: nat, maxAttempts: real)

  /** The clock after a successful request, or None when sending failed. */
  type SendResult = Option<nat>

  function Requested(s: Slot, sent: SendResult, interval: nat): Slot {
    if sent.Some? then s.(retryTime := sent.value + interval) else s
  }

  /** What its surroundings contribute to the requests of a step: what stands
      beyond the previous frame's table of sizes, and the outcomes of the two
      requests. */
  datatype Outside = Outside(beyond: nat, sentPrevious: SendResult, sentOwn: SendResult)

  const NOTHING: Outside := Outside(0, None, None)

  /** The gap at the end of the previous frame is requested first. */
  function RequestPrevious(t: Table, i: nat, packetCounter: nat, interval: nat, o: Outside): (u: Table)
    requires AllWellFormed(t) && i < |t| && Active(t[i]) && packetCounter < t[i].total
    ensures |u| == |t|
  {
    var previous := NewestBefore(t, t[i].timestamp, |t|);
    if LooksBack(t[i].sizes, packetCounter) && previous.Some?
       && PreviousGap(t[previous.value], t[i].total, o.beyond).Some?
    then t[previous.value := Requested(t[previous.value], o.sentPrevious, interval)]
    else t
  }

  function RequestGaps(t: Table, i: nat, packetCounter: nat, interval: nat, o: Outside): (u: Table)
    requires AllWellFormed(t) && i < |t| && Active(t[i]) && packetCounter < t[i].total
    ensures |u| == |t|
  {
    var u := RequestPrevious(t, i, packetCounter, interval, o);
    if OwnGap(t[i].sizes, packetCounter).Some? then u[i := Requested(u[i], o.sentOwn, interval)] else u
  }

  /** What follows a packet (or an NDA, with `packetCounter` None) that was
      taken into slot i. */
  function AfterPacket(t: Table, i: nat, packetCounter: Option<nat>, cfg: Config, support: bool, o: Outside)
    : (Table, seq<Slot>)
    requires AllWellFormed(t) && i < |t| && Active(t[i])
    requires packetCounter.Some? ==> packetCounter.value < t[i].total
  {
    if cfg.mode == 0 || !support then
      if Complete(t[i]) then (t[i := Retire(t[i])], [t[i]]) else (t, [])
    else if cfg.mode == 1 then
      if Complete(t[i]) then Drain(t, i)
      else if packetCounter.Some? then
        (RequestGaps(t, i, packetCounter.value, cfg.interval, o), [])
      else (t, [])
    else (t, [])
  }

  predicate TimedOut(s: Slot, now: nat, cfg: Config) {
    Active(s) && now as real > s.timeLast as real + cfg.waitTimeout
  }

  function CheckSlot(t: Table, i: nat, now: nat, cfg: Config, support: bool, sent: SendResult): (Table, seq<Slot>)
    requires i < |t|
  {
    var s := t[i];
    if !TimedOut(s, now, cfg) then (t, [])
    else if !support then Drain(t, i)
    else if now < s.retryTime then (t, [])
    else if s.retryCount as real >= cfg.maxAttempts then Drain(t, i)
    else if sent.None? then (t, [])
    else (t[i := Requested(s, sent, cfg.interval).(retryCount := (s.retryCount + 1) % UINT16_RANGE)], [])
  }

  /** The timeout check over the first n slots, in order. */
  function CheckSlots(t: Table, n: nat, now: nat, cfg: Config, support: bool, sent: seq<SendResult>)
    : (r: (Table, seq<Slot>))
    requires n <= |t| && |sent| == |t|
    ensures |r.0| == |t|
  {
    if n == 0 then (t, [])
    else
      var (u, out) := CheckSlots(t, n - 1, now, cfg, support, sent);
      DrainConserves(u, n - 1);
      var (v, out') := CheckSlot(u, n - 1, now, cfg, support, sent[n - 1]);
      (v, out + out')
  }
}
