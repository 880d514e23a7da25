/** Reassembly of protocol v1 (sdk/bta_eth.c:1901-2129): three arrays of
    packets, one per frame in progress, and a count of bytes for each, as
    functions on values. LegacyParser.dfy holds the code in its own form. */
module LegacyFrames {
  import opened Counting
  import opened Types

  /** A packet buffer; `id` tells buffers apart. */
  datatype Packet = Packet(id: nat, payload: seq<byte>)

  type Cells = seq<Option<Packet>>

  /** One array with its frame counter (-1 at first) and byte count. */
  datatype Lane = Lane(counter: int, bytes: nat, cells: Cells)

  datatype State = State(lanes: seq<Lane>, len: nat)

  predicate Valid(st: State) {
    && |st.lanes| == 3 && st.len < UINT16_RANGE
    && forall k :: 0 <= k < 3 ==> |st.lanes[k].cells| == st.len && st.lanes[k].bytes < UINT32_RANGE
  }

  function Empty(n: nat): (c: Cells)
    ensures |c| == n && forall k :: 0 <= k < n ==> c[k] == None
  {
    seq(n, _ => None)
  }

  function Start(): (st: State)
    ensures Valid(st)
  {
    var lane := Lane(-1, 0, Empty(512));
    State([lane, lane, lane], 512)
  }

  /** What a datagram says; its length field has been checked. */
  datatype Datagram = Datagram(frameCounter: nat, packetCounter: nat, totalLength: nat, packet: Packet)

  predicate Legal(d: Datagram) {
    && d.frameCounter < UINT16_RANGE && d.packetCounter < UINT16_RANGE && d.totalLength < UINT32_RANGE
    && |d.packet.payload| < UINT16_RANGE
  }

  /** The packets of an array, in order. */
  function Held(cells: Cells): seq<Packet> {
    if cells == [] then [] else Held(cells[..|cells| - 1]) + One(cells[|cells| - 1])
  }

  function One(cell: Option<Packet>): seq<Packet> {
    if cell.Some? then [cell.value] else []
  }

  // ---- Which array to use ----

  function Distance(counter: int, frameCounter: nat): nat {
    if counter >= frameCounter then counter - frameCounter else frameCounter - counter
  }

  /** The array given up for a new frame: the one whose counter is farthest
      away, the first of them if several are. */
  function Farthest(st: State, frameCounter: nat): (k: nat)
    requires Valid(st)
    ensures k < 3
  {
    var a := Distance(st.lanes[0].counter, frameCounter);
    var b := Distance(st.lanes[1].counter, frameCounter);
    var c := Distance(st.lanes[2].counter, frameCounter);
    if a >= b && a >= c then 0 else if b >= a && b >= c then 1 else 2
  }

  function LaneOf(st: State, frameCounter: nat): (k: Option<nat>)
    requires Valid(st)
    ensures k.Some? ==> k.value < 3 && st.lanes[k.value].counter == frameCounter
    ensures k.None? ==> forall i :: 0 <= i < 3 ==> st.lanes[i].counter != frameCounter
  {
    if st.lanes[0].counter == frameCounter then Some(0)
    else if st.lanes[1].counter == frameCounter then Some(1)
    else if st.lanes[2].counter == frameCounter then Some(2)
    else None
  }

  /** The state with an array for the frame, which array, and the packets
      given back. */
  function Claim(st: State, frameCounter: nat): (r: (State, nat, seq<Packet>))
    requires Valid(st)
    ensures Valid(r.0) && r.0.len == st.len && r.1 < 3 && r.0.lanes[r.1].counter == frameCounter
    ensures LaneOf(r.0, frameCounter) == Some(r.1)
  {
    var k := LaneOf(st, frameCounter);
    if k.Some? then (st, k.value, [])
    else
      var far := Farthest(st, frameCounter);
      (st.(lanes := st.lanes[far := Lane(frameCounter, 0, Empty(st.len))]), far, Held(st.lanes[far].cells))
  }

  // ---- Too many packets for the arrays ----

  /** The order in which the three arrays are emptied: cell by cell. */
  function Interleaved(a: Cells, b: Cells, c: Cells): seq<Packet>
    requires |a| == |b| == |c|
  {
    if a == [] then []
    else
      var n := |a| - 1;
      Interleaved(a[..n], b[..n], c[..n]) + (One(a[n]) + One(b[n]) + One(c[n]))
  }

  /** Twice the length, in 16 bits; the byte counts and frame counters stay. */
  function Regrown(st: State): (r: State)
    requires Valid(st)
    ensures Valid(r)
  {
    var n := (st.len * 2) % UINT16_RANGE;
    State([st.lanes[0].(cells := Empty(n)), st.lanes[1].(cells := Empty(n)), st.lanes[2].(cells := Empty(n))], n)
  }

  // ---- Storing a packet and completing a frame ----

  /** The lane with the packet stored and the packet it replaces. */
  function Store(lane: Lane, k: nat, packet: Packet): (r: (Lane, seq<Packet>))
    requires k < |lane.cells|
    ensures |r.0.cells| == |lane.cells| && r.0.bytes < UINT32_RANGE && r.0.counter == lane.counter
  {
    var size := |packet.payload|;
    var kept := if lane.cells[k].Some? then (lane.bytes - size) % UINT32_RANGE else lane.bytes;
    (Lane(lane.counter, (kept + size) % UINT32_RANGE, lane.cells[k := Some(packet)]),
     One(lane.cells[k]))
  }

  /** Copies packets from index i on into the frame and gives them back, until
      the frame has the right length; a packet that would pass the end is
      left out. The results are the cells, the packets given back, and the
      bytes copied. */
  function Copy(cells: Cells, i: nat, total: nat, done: seq<byte>): (r: (Cells, seq<Packet>, seq<byte>))
    requires i <= |cells|
    ensures |r.0| == |cells|
    decreases |cells| - i
  {
    if i == |cells| then (cells, [], done)
    else if cells[i].None? then Copy(cells, i + 1, total, done)
    else
      var p := cells[i].value;
      var more := if |done| + |p.payload| <= total then done + p.payload else done;
      var rest := cells[i := None];
      if |more| == total then (rest, [p], more)
      else
        var (end, freed, bytes) := Copy(rest, i + 1, total, more);
        (end, [p] + freed, bytes)
  }

  datatype Result = Result(st: State, freed: seq<Packet>, frame: Option<(nat, seq<byte>)>)

  /** The packet goes into array k; a frame whose byte count comes out right
      is put together and handed on. */
  function Deposit(u: State, k: nat, d: Datagram): (r: Result)
    requires Valid(u) && k < 3 && d.packetCounter < u.len && |d.packet.payload| < UINT16_RANGE
    ensures Valid(r.st)
  {
    var (lane, replaced) := Store(u.lanes[k], d.packetCounter, d.packet);
    if lane.bytes != d.totalLength then Result(u.(lanes := u.lanes[k := lane]), replaced, None)
    else
      var (cells, copied, bytes) := Copy(lane.cells, 0, d.totalLength, []);
      Result(u.(lanes := u.lanes[k := lane.(cells := cells)]), replaced + copied,
             if |bytes| == d.totalLength then Some((d.frameCounter, bytes)) else None)
  }

  /** The packet does not fit: everything is dropped and larger arrays follow. */
  function Overflow(u: State, d: Datagram): (r: Result)
    requires Valid(u)
    ensures Valid(r.st)
  {
    Result(Regrown(u), Interleaved(u.lanes[0].cells, u.lanes[1].cells, u.lanes[2].cells) + [d.packet], None)
  }

  /** A datagram: the next state, the packet buffers given back in order, and
      the frame handed on, if any. */
  function Step(st: State, d: Datagram): (r: Result)
    requires Valid(st) && Legal(d)
    ensures Valid(r.st)
  {
    var (u, k, evicted) := Claim(st, d.frameCounter);
    var r := if d.packetCounter >= u.len then Overflow(u, d) else Deposit(u, k, d);
    r.(freed := evicted + r.freed)
  }

  // ---- No packet buffer is lost or given back twice ----

  function AllHeld(st: State): seq<Packet>
    requires Valid(st)
  {
    Held(st.lanes[0].cells) + Held(st.lanes[1].cells) + Held(st.lanes[2].cells)
  }

  function IsIn(cell: Option<Packet>, which: Packet -> bool): nat {
    if cell.Some? && which(cell.value) then 1 else 0
  }

  lemma {:induction false} TimesCell(cell: Option<Packet>, which: Packet -> bool)
    ensures Times(One(cell), which) == IsIn(cell, which)
  {
    if cell.Some? {
      TimesOne(cell.value, which);
    }
  }

  lemma {:induction false} HeldLast(cells: Cells, n: nat, which: Packet -> bool)
    requires |cells| == n + 1
    ensures Times(Held(cells), which) == Times(Held(cells[..n]), which) + IsIn(cells[n], which)
  {
    TimesAdd(Held(cells[..n]), One(cells[n]), which);
    TimesCell(cells[n], which);
  }

  lemma {:induction false} HeldUpdate(cells: Cells, k: nat, cell: Option<Packet>, which: Packet -> bool)
    requires k < |cells|
    ensures Times(Held(cells[k := cell]), which) + IsIn(cells[k], which) ==
            Times(Held(cells), which) + IsIn(cell, which)
  {
    var n := |cells| - 1;
    HeldLast(cells, n, which);
    HeldLast(cells[k := cell], n, which);
    if k < n {
      assert cells[k := cell][..n] == cells[..n][k := cell];
      HeldUpdate(cells[..n], k, cell, which);
    } else {
      assert cells[k := cell][..n] == cells[..n];
    }
  }

  lemma {:induction false} HeldEmpty(n: nat)
    ensures Held(Empty(n)) == []
  {
    if n > 0 {
      assert Empty(n)[..n - 1] == Empty(n - 1);
      HeldEmpty(n - 1);
    }
  }

  lemma {:induction false} CopyConserves(cells: Cells, i: nat, total: nat, done: seq<byte>, which: Packet -> bool)
    requires i <= |cells|
    ensures var (end, freed, bytes) := Copy(cells, i, total, done);
            Times(Held(end), which) + Times(freed, which) == Times(Held(cells), which)
    decreases |cells| - i
  {
    if i < |cells| {
      if cells[i].None? {
        CopyConserves(cells, i + 1, total, done, which);
      } else {
        var q := cells[i].value;
        var more := if |done| + |q.payload| <= total then done + q.payload else done;
        HeldUpdate(cells, i, None, which);
        TimesCell(cells[i], which);
        if |more| != total {
          CopyConserves(cells[i := None], i + 1, total, more, which);
          TimesAdd([q], Copy(cells[i := None], i + 1, total, more).1, which);
        }
      }
    }
  }

  lemma {:induction false} InterleavedConserves(a: Cells, b: Cells, c: Cells, which: Packet -> bool)
    requires |a| == |b| == |c|
    ensures Times(Interleaved(a, b, c), which) == Times(Held(a), which) + Times(Held(b), which) + Times(Held(c), which)
  {
    if a != [] {
      var n := |a| - 1;
      InterleavedConserves(a[..n], b[..n], c[..n], which);
      TimesThree(One(a[n]), One(b[n]), One(c[n]), which);
      TimesAdd(Interleaved(a[..n], b[..n], c[..n]), One(a[n]) + One(b[n]) + One(c[n]), which);
      TimesAdd(Held(a[..n]), One(a[n]), which);
      TimesAdd(Held(b[..n]), One(b[n]), which);
      TimesAdd(Held(c[..n]), One(c[n]), which);
    }
  }

  lemma {:induction false} TimesThree(a: seq<Packet>, b: seq<Packet>, c: seq<Packet>, which: Packet -> bool)
    ensures Times(a + b + c, which) == Times(a, which) + Times(b, which) + Times(c, which)
  {
    TimesAdd(a, b, which);
    TimesAdd(a + b, c, which);
  }

  /** How many packets among `which` the arrays hold. */
  function TimesHeld(st: State, which: Packet -> bool): nat
    requires Valid(st)
  {
    Times(Held(st.lanes[0].cells), which) + Times(Held(st.lanes[1].cells), which)
      + Times(Held(st.lanes[2].cells), which)
  }

  lemma {:induction false} ClaimConserves(st: State, frameCounter: nat, which: Packet -> bool)
    requires Valid(st)
    ensures var (u, k, evicted) := Claim(st, frameCounter);
            TimesHeld(u, which) + Times(evicted, which) == TimesHeld(st, which)
  {
    HeldEmpty(st.len);
    if LaneOf(st, frameCounter).None? {
      OneLaneChanged(st, Farthest(st, frameCounter), Lane(frameCounter, 0, Empty(st.len)), which);
    }
  }

  lemma {:induction false} StoreConserves(lane: Lane, k: nat, packet: Packet, which: Packet -> bool)
    requires k < |lane.cells|
    ensures var (r, replaced) := Store(lane, k, packet);
            Times(Held(r.cells), which) + Times(replaced, which) ==
              Times(Held(lane.cells), which) + Times([packet], which)
  {
    HeldUpdate(lane.cells, k, Some(packet), which);
    TimesCell(lane.cells[k], which);
    TimesCell(Some(packet), which);
  }

  lemma {:induction false} RegrowConserves(u: State, which: Packet -> bool)
    requires Valid(u)
    ensures TimesHeld(Regrown(u), which) == 0
    ensures Times(Interleaved(u.lanes[0].cells, u.lanes[1].cells, u.lanes[2].cells), which) == TimesHeld(u, which)
  {
    InterleavedConserves(u.lanes[0].cells, u.lanes[1].cells, u.lanes[2].cells, which);
    HeldEmpty((u.len * 2) % UINT16_RANGE);
  }

  lemma {:induction false} OneLaneChanged(u: State, k: nat, lane: Lane, which: Packet -> bool)
    requires Valid(u) && k < 3 && Valid(u.(lanes := u.lanes[k := lane]))
    ensures TimesHeld(u.(lanes := u.lanes[k := lane]), which) - Times(Held(lane.cells), which) ==
            TimesHeld(u, which) - Times(Held(u.lanes[k].cells), which)
  {
  }

  lemma {:induction false} CompleteConserves(u: State, k: nat, lane: Lane, total: nat, which: Packet -> bool)
    requires Valid(u) && k < 3 && |lane.cells| == u.len && lane.bytes < UINT32_RANGE
    ensures var (cells, copied, bytes) := Copy(lane.cells, 0, total, []);
            TimesHeld(u.(lanes := u.lanes[k := lane.(cells := cells)]), which) + Times(copied, which)
            == TimesHeld(u, which) - Times(Held(u.lanes[k].cells), which) + Times(Held(lane.cells), which)
  {
    CopyConserves(lane.cells, 0, total, [], which);
    var (cells, copied, bytes) := Copy(lane.cells, 0, total, []);
    OneLaneChanged(u, k, lane.(cells := cells), which);
  }

  lemma {:induction false} DepositConserves(u: State, k: nat, d: Datagram, which: Packet -> bool)
    requires Valid(u) && k < 3 && d.packetCounter < u.len && Legal(d)
    ensures var r := Deposit(u, k, d);
            TimesHeld(r.st, which) + Times(r.freed, which) == TimesHeld(u, which) + Times([d.packet], which)
  {
    StoreConserves(u.lanes[k], d.packetCounter, d.packet, which);
    var (lane, replaced) := Store(u.lanes[k], d.packetCounter, d.packet);
    if lane.bytes != d.totalLength {
      OneLaneChanged(u, k, lane, which);
    } else {
      CompleteConserves(u, k, lane, d.totalLength, which);
      TimesAdd(replaced, Copy(lane.cells, 0, d.totalLength, []).1, which);
    }
  }

  lemma {:induction false} OverflowConserves(u: State, d: Datagram, which: Packet -> bool)
    requires Valid(u) && Legal(d)
    ensures var r := Overflow(u, d);
            TimesHeld(r.st, which) + Times(r.freed, which) == TimesHeld(u, which) + Times([d.packet], which)
  {
    RegrowConserves(u, which);
    TimesAdd(Interleaved(u.lanes[0].cells, u.lanes[1].cells, u.lanes[2].cells), [d.packet], which);
  }

  /** Every packet buffer that was held, and the one that came, is afterwards
      either held or given back, exactly once: so it is for any choice of
      packets to look at. */
  lemma {:induction false} StepConserves(st: State, d: Datagram, which: Packet -> bool)
    requires Valid(st) && Legal(d)
    ensures TimesHeld(Step(st, d).st, which) + Times(Step(st, d).freed, which) ==
            TimesHeld(st, which) + Times([d.packet], which)
  {
    var (u, k, evicted) := Claim(st, d.frameCounter);
    ClaimConserves(st, d.frameCounter, which);
    if d.packetCounter >= u.len {
      OverflowConserves(u, d, which);
      TimesAdd(evicted, Overflow(u, d).freed, which);
    } else {
      DepositConserves(u, k, d, which);
      TimesAdd(evicted, Deposit(u, k, d).freed, which);
    }
  }
}
