/** Whole runs of the frame parser (protocol v2), and what every run keeps. */
module FrameRuns {
  import opened Types
  import opened FrameTable

  /** A datagram of protocol v2: rejected by a check, a data packet, or an NDA.
      The clock is read once when a slot is made ready and once more when the
      packet is stored. */
  datatype Content =
    | Rejected
    | Data(p: Packet, now: nat, later: nat, buffer: seq<byte>, outside: Outside)
    | Unavailable(frameCounter: nat, first: nat, counters: seq<nat>)

  /** `resendable` is flag 0x04, read before any check. */
  datatype Event =
    | Datagram(resendable: bool, content: Content)
    | Check(time: nat, sent: seq<SendResult>)

  datatype Input = Input(cfg: Config, event: Event)

  datatype State = State(table: Table, support: bool)

  predicate LegalContent(c: Content) {
    c.Data? ==> Legal(c.p) && |c.buffer| == c.p.frameLen && 0 < c.now <= c.later
  }

  predicate LegalEvent(e: Event, slots: nat) {
    match e
    case Datagram(_, c) => LegalContent(c)
    case Check(_, sent) => |sent| == slots
  }

  /** The table after taking in a datagram, the slot concerned, and the packet counter. */
  function TakeIn(t: Table, c: Content): (r: (Table, Option<nat>))
    requires AllWellFormed(t) && LegalContent(c)
    ensures |r.0| == |t| && (r.1.Some? ==> r.1.value < |t|)
  {
    match c
    case Rejected => (t, None)
    case Data(p, now, later, buffer, _) => Receive(t, p, now, later, buffer)
    case Unavailable(frameCounter, first, counters) => ReceiveNda(t, frameCounter, first, counters)
  }

  lemma {:induction false} TakeInKeepsWellFormed(t: Table, c: Content)
    requires AllWellFormed(t) && LegalContent(c)
    ensures var (u, i) := TakeIn(t, c);
            AllWellFormed(u) && (i.Some? ==> Active(u[i.value]) && (c.Data? ==> c.p.packetCounter < u[i.value].total))
  {
    match c
    case Rejected =>
    case Data(p, now, later, buffer, _) => ReceiveKeepsWellFormed(t, p, now, later, buffer);
    case Unavailable(frameCounter, first, counters) =>
      var found := Find(t, frameCounter, |t|);
      if found.Some? {
        MarkNdaKeepsWellFormed(t[found.value], counters);
      }
  }

  function StepContent(t: Table, cfg: Config, resendable: bool, c: Content): (Table, seq<Slot>)
    requires AllWellFormed(t) && LegalContent(c)
  {
    TakeInKeepsWellFormed(t, c);
    var (u, i) := TakeIn(t, c);
    if i.None? then (u, [])
    else if c.Data? then AfterPacket(u, i.value, Some(c.p.packetCounter), cfg, resendable, c.outside)
    else AfterPacket(u, i.value, None, cfg, resendable, NOTHING)
  }

  /** One step: the next state, and the frames handed on, in order. */
  function Step(st: State, input: Input): (State, seq<Slot>)
    requires AllWellFormed(st.table) && LegalEvent(input.event, |st.table|)
  {
    match input.event
    case Datagram(resendable, c) =>
      var (u, out) := StepContent(st.table, input.cfg, resendable, c);
      (State(u, resendable), out)
    case Check(time, sent) =>
      var (u, out) := CheckSlots(st.table, |st.table|, time, input.cfg, st.support, sent);
      (State(u, st.support), out)
  }

  // ---- Steps after the packet is in leave frame contents alone ----

  /** `s'` holds the same frame as `s`; only the retry bookkeeping may differ,
      and the frame may have been handed on. */
  predicate SameFrame(s: Slot, s': Slot) {
    && s' == s.(timestamp := s'.timestamp, retryTime := s'.retryTime, retryCount := s'.retryCount)
    && (s'.timestamp == s.timestamp || s'.timestamp == 0)
  }

  predicate SameFrames(t: Table, u: Table) {
    |u| == |t| && forall k :: 0 <= k < |t| ==> SameFrame(t[k], u[k])
  }

  predicate Holds(t: Table, s: Slot) {
    Active(s) && exists m :: 0 <= m < |t| && SameFrame(t[m], s)
  }

  predicate AllHeld(t: Table, out: seq<Slot>) {
    forall k :: 0 <= k < |out| ==> Holds(t, out[k])
  }

  lemma {:induction false} DrainSameFrames(t: Table, i: nat)
    requires i < |t|
    ensures SameFrames(t, Drain(t, i).0) && AllHeld(t, Drain(t, i).1)
  {
    DrainConserves(t, i);
    DrainNotBefore(t, i, 0);
    var out := Drain(t, i).1;
    forall k | 0 <= k < |out| ensures Holds(t, out[k]) {
      var m :| 0 <= m < |t| && t[m] == out[k];
      assert SameFrame(t[m], out[k]);
    }
  }

  lemma {:induction false} AfterPacketSameFrames(t: Table, i: nat, packetCounter: Option<nat>, cfg: Config,
                                                 support: bool, o: Outside)
    requires AllWellFormed(t) && i < |t| && Active(t[i])
    requires packetCounter.Some? ==> packetCounter.value < t[i].total
    ensures var (u, out) := AfterPacket(t, i, packetCounter, cfg, support, o);
            SameFrames(t, u) && AllHeld(t, out)
  {
    if cfg.mode == 0 || !support {
      assert SameFrame(t[i], t[i]);
    } else if cfg.mode == 1 && Complete(t[i]) {
      DrainSameFrames(t, i);
    }
  }

  lemma {:induction false} CheckSlotSameFrames(t: Table, i: nat, now: nat, cfg: Config, support: bool, sent: SendResult)
    requires i < |t|
    ensures var (u, out) := CheckSlot(t, i, now, cfg, support, sent);
            SameFrames(t, u) && AllHeld(t, out)
  {
    DrainSameFrames(t, i);
  }

  lemma {:induction false} CheckSlotsSameFrames(t: Table, n: nat, now: nat, cfg: Config, support: bool,
                                                sent: seq<SendResult>)
    requires n <= |t| && |sent| == |t|
    ensures var (u, out) := CheckSlots(t, n, now, cfg, support, sent);
            SameFrames(t, u) && AllHeld(t, out)
  {
    if n > 0 {
      CheckSlotsSameFrames(t, n - 1, now, cfg, support, sent);
      var (u, out) := CheckSlots(t, n - 1, now, cfg, support, sent);
      CheckSlotSameFrames(u, n - 1, now, cfg, support, sent[n - 1]);
      var (v, out') := CheckSlot(u, n - 1, now, cfg, support, sent[n - 1]);
    }
  }

  // ---- Every step keeps the table well-formed ----

  lemma {:induction false} StepKeepsWellFormed(st: State, input: Input)
    requires AllWellFormed(st.table) && LegalEvent(input.event, |st.table|)
    ensures AllWellFormed(Step(st, input).0.table) && |Step(st, input).0.table| == |st.table|
  {
    match input.event
    case Datagram(resendable, c) =>
      TakeInKeepsWellFormed(st.table, c);
      var (u, i) := TakeIn(st.table, c);
      if i.Some? {
        if c.Data? {
          AfterPacketSameFrames(u, i.value, Some(c.p.packetCounter), input.cfg, resendable, c.outside);
        } else {
          AfterPacketSameFrames(u, i.value, None, input.cfg, resendable, NOTHING);
        }
      }
    case Check(time, sent) =>
      CheckSlotsSameFrames(st.table, |st.table|, time, input.cfg, st.support, sent);
  }

  // ---- Runs ----

  predicate LegalRun(inputs: seq<Input>, slots: nat) {
    forall k :: 0 <= k < |inputs| ==> LegalEvent(inputs[k].event, slots)
  }

  /** A run from `st`: the last state and everything handed on, in order. */
  function Run(st: State, inputs: seq<Input>): (State, seq<Slot>)
    requires AllWellFormed(st.table) && LegalRun(inputs, |st.table|)
    decreases |inputs|
  {
    if inputs == [] then (st, [])
    else
      StepKeepsWellFormed(st, inputs[0]);
      var (next, out) := Step(st, inputs[0]);
      var (end, later) := Run(next, inputs[1..]);
      (end, out + later)
  }

  /** The parser starts with all slots unused. */
  function Start(slots: nat): (st: State)
    ensures AllWellFormed(st.table) && |st.table| == slots
    ensures forall i :: 0 <= i < slots ==> !Active(st.table[i])
  {
    State(seq(slots, _ => EMPTY), false)
  }

  /** The table right after the datagram of a step was taken in. */
  function Taken(st: State, input: Input): Table
    requires AllWellFormed(st.table) && LegalEvent(input.event, |st.table|)
  {
    match input.event
    case Datagram(_, c) => TakeIn(st.table, c).0
    case Check(_, _) => st.table
  }

  lemma {:induction false} StepSameFrames(st: State, input: Input)
    requires AllWellFormed(st.table) && LegalEvent(input.event, |st.table|)
    ensures var (next, out) := Step(st, input);
            SameFrames(Taken(st, input), next.table) && AllHeld(Taken(st, input), out)
  {
    match input.event
    case Datagram(resendable, c) =>
      TakeInKeepsWellFormed(st.table, c);
      var (u, i) := TakeIn(st.table, c);
      if i.Some? {
        if c.Data? {
          AfterPacketSameFrames(u, i.value, Some(c.p.packetCounter), input.cfg, resendable, c.outside);
        } else {
          AfterPacketSameFrames(u, i.value, None, input.cfg, resendable, NOTHING);
        }
      }
    case Check(time, sent) =>
      CheckSlotsSameFrames(st.table, |st.table|, time, input.cfg, st.support, sent);
  }
}
