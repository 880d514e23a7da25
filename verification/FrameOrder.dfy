/** The order in which frames are handed on (protocol v2), over whole runs:
    timestamps never decrease, exactly as long as no frame is handed on past
    an older one still in the table. */
module FrameOrder {
  import opened Types
  import opened FrameTable
  import opened FrameRuns

  /** Timestamp of the last frame handed on. */
  function EndOf(out: seq<Slot>, last: nat): nat {
    if out == [] then last else out[|out| - 1].timestamp
  }

  predicate Within(out: seq<Slot>, low: nat, high: nat) {
    forall k :: 0 <= k < |out| ==> low <= out[k].timestamp <= high
  }

  predicate Bounded(t: Table, clock: nat) {
    forall k :: 0 <= k < |t| ==> t[k].timestamp <= clock
  }

  /** `out` was handed on after a frame of timestamp `last`, from old to young,
      and the table `u` left behind holds nothing older. */
  predicate Orderly(last: nat, out: seq<Slot>, u: Table, clock: nat) {
    && Ordered(out) && last <= clock && Within(out, last, clock)
    && NotBefore(u, EndOf(out, last)) && Bounded(u, clock)
  }

  lemma {:induction false} DrainOrderly(t: Table, i: nat, last: nat, clock: nat)
    requires i < |t| && Active(t[i])
    requires last <= clock && NotBefore(t, last) && Bounded(t, clock)
    ensures Orderly(last, Drain(t, i).1, Drain(t, i).0, clock)
  {
    DrainMeans(t, i);
    DrainConserves(t, i);
    DrainNotBefore(t, i, last);
    var out := Drain(t, i).1;
    forall k | 0 <= k < |out| ensures last <= out[k].timestamp <= clock {
      var m :| 0 <= m < |t| && t[m] == out[k];
    }
  }

  // ---- The timeout check ----

  lemma {:induction false} CheckSlotOrderly(t: Table, i: nat, now: nat, cfg: Config, support: bool, sent: SendResult,
                                            last: nat, clock: nat)
    requires i < |t| && last <= clock && NotBefore(t, last) && Bounded(t, clock)
    ensures var (u, out) := CheckSlot(t, i, now, cfg, support, sent);
            Orderly(last, out, u, clock)
  {
    if Active(t[i]) {
      DrainOrderly(t, i, last, clock);
    }
  }

  predicate CheckedInOrder(t: Table, n: nat, now: nat, cfg: Config, support: bool, sent: seq<SendResult>, last: nat,
                           clock: nat)
    requires n <= |t| == |sent|
  {
    var (u, out) := CheckSlots(t, n, now, cfg, support, sent);
    Orderly(last, out, u, clock)
  }

  lemma {:induction false} NextSlotOrderly(t: Table, n: nat, now: nat, cfg: Config, support: bool,
                                           sent: seq<SendResult>, last: nat, clock: nat)
    requires 0 < n <= |t| == |sent| && CheckedInOrder(t, n - 1, now, cfg, support, sent, last, clock)
    ensures CheckedInOrder(t, n, now, cfg, support, sent, last, clock)
  {
    var (u, out) := CheckSlots(t, n - 1, now, cfg, support, sent);
    var (v, out') := CheckSlot(u, n - 1, now, cfg, support, sent[n - 1]);
    CheckSlotOrderly(u, n - 1, now, cfg, support, sent[n - 1], EndOf(out, last), clock);
    assert CheckSlots(t, n, now, cfg, support, sent) == (v, out + out');
  }

  lemma {:induction false} CheckSlotsOrderly(t: Table, n: nat, now: nat, cfg: Config, support: bool,
                                             sent: seq<SendResult>, last: nat, clock: nat)
    requires n <= |t| == |sent| && last <= clock && NotBefore(t, last) && Bounded(t, clock)
    ensures CheckedInOrder(t, n, now, cfg, support, sent, last, clock)
  {
    if n == 0 {
    } else {
      CheckSlotsOrderly(t, n - 1, now, cfg, support, sent, last, clock);
      NextSlotOrderly(t, n, now, cfg, support, sent, last, clock);
    }
  }

  // ---- Datagrams ----

  /** The clock never runs backwards. */
  predicate InTime(e: Event, clock: nat) {
    match e
    case Datagram(_, Data(_, now, later, _, _)) => clock <= now <= later
    case Datagram(_, _) => true
    case Check(time, _) => clock <= time
  }

  function ClockAfter(e: Event, clock: nat): nat {
    match e
    case Datagram(_, Data(_, _, later, _, _)) => later
    case Datagram(_, _) => clock
    case Check(time, _) => time
  }

  lemma {:induction false} ReceiveOrderly(t: Table, p: Packet, now: nat, later: nat, buffer: seq<byte>, last: nat)
    requires AllWellFormed(t) && Legal(p) && |buffer| == p.frameLen && 0 < now <= later
    requires last <= now && NotBefore(t, last) && Bounded(t, now)
    ensures Orderly(last, [], Receive(t, p, now, later, buffer).0, later)
  {
  }

  lemma {:induction false} TakeInOrderly(t: Table, c: Content, resendable: bool, last: nat, clock: nat)
    requires AllWellFormed(t) && LegalContent(c) && InTime(Datagram(resendable, c), clock)
    requires last <= clock && NotBefore(t, last) && Bounded(t, clock)
    ensures Orderly(last, [], TakeIn(t, c).0, ClockAfter(Datagram(resendable, c), clock))
  {
    match c
    case Rejected =>
    case Data(p, now, later, buffer, _) => ReceiveOrderly(t, p, now, later, buffer, last);
    case Unavailable(frameCounter, first, counters) =>
      var found := Find(t, frameCounter, |t|);
      if found.Some? {
        MarkNdaTimestamp(t[found.value], counters);
      }
  }

  lemma {:induction false} MarkNdaTimestamp(s: Slot, counters: seq<nat>)
    ensures MarkNda(s, counters).timestamp == s.timestamp
    decreases |counters|
  {
    if counters != [] && counters[0] < s.total && counters[0] < |s.sizes| {
      MarkNdaTimestamp(s.(nda := (s.nda + 1) % UINT16_RANGE, sizes := s.sizes[counters[0] := NDA]), counters[1..]);
    }
  }

  /** Without retransmission a complete frame is handed on at once, whatever
      else is in the table. */
  predicate Direct(cfg: Config, resendable: bool) {
    cfg.mode == 0 || !resendable
  }

  /** The frame that a datagram is about to complete has no older one waiting,
      or frames are drained before it. */
  predicate Guarded(st: State, input: Input)
    requires AllWellFormed(st.table) && LegalEvent(input.event, |st.table|)
  {
    input.event.Datagram? && Direct(input.cfg, input.event.resendable) ==>
      var (u, i) := TakeIn(st.table, input.event.content);
      i.Some? && Complete(u[i.value]) ==> NotBefore(u, u[i.value].timestamp)
  }

  lemma {:induction false} AfterPacketOrderly(t: Table, i: nat, packetCounter: Option<nat>, cfg: Config, support: bool,
                                                o: Outside, last: nat, clock: nat)
    requires AllWellFormed(t) && i < |t| && Active(t[i])
    requires packetCounter.Some? ==> packetCounter.value < t[i].total
    requires last <= clock && NotBefore(t, last) && Bounded(t, clock)
    requires Direct(cfg, support) && Complete(t[i]) ==> NotBefore(t, t[i].timestamp)
    ensures var (u, out) := AfterPacket(t, i, packetCounter, cfg, support, o);
            Orderly(last, out, u, clock)
  {
    DrainOrderly(t, i, last, clock);
    if packetCounter.Some? {
      RequestGapsTimestamps(t, i, packetCounter.value, cfg.interval, o);
    }
  }

  lemma {:induction false} RequestGapsTimestamps(t: Table, i: nat, packetCounter: nat, interval: nat, o: Outside)
    requires AllWellFormed(t) && i < |t| && Active(t[i]) && packetCounter < t[i].total
    ensures var u := RequestGaps(t, i, packetCounter, interval, o);
            forall k :: 0 <= k < |t| ==> u[k].timestamp == t[k].timestamp
  {
  }

  lemma {:induction false} StepOrderly(st: State, input: Input, last: nat, clock: nat)
    requires AllWellFormed(st.table) && LegalEvent(input.event, |st.table|)
    requires InTime(input.event, clock) && Guarded(st, input)
    requires last <= clock && NotBefore(st.table, last) && Bounded(st.table, clock)
    ensures var (next, out) := Step(st, input);
            Orderly(last, out, next.table, ClockAfter(input.event, clock))
  {
    var clock' := ClockAfter(input.event, clock);
    match input.event
    case Datagram(resendable, c) =>
      TakeInKeepsWellFormed(st.table, c);
      TakeInOrderly(st.table, c, resendable, last, clock);
      var (u, i) := TakeIn(st.table, c);
      if i.Some? {
        if c.Data? {
          AfterPacketOrderly(u, i.value, Some(c.p.packetCounter), input.cfg, resendable, c.outside, last, clock');
        } else {
          AfterPacketOrderly(u, i.value, None, input.cfg, resendable, NOTHING, last, clock');
        }
      }
    case Check(time, sent) =>
      CheckSlotsOrderly(st.table, |st.table|, time, input.cfg, st.support, sent, last, clock');
  }

  // ---- Whole runs ----

  predicate TimedRun(inputs: seq<Input>, clock: nat)
    decreases |inputs|
  {
    inputs != [] ==> InTime(inputs[0].event, clock) && TimedRun(inputs[1..], ClockAfter(inputs[0].event, clock))
  }

  predicate GuardedRun(st: State, inputs: seq<Input>)
    requires AllWellFormed(st.table) && LegalRun(inputs, |st.table|)
    decreases |inputs|
  {
    if inputs == [] then true
    else
      StepKeepsWellFormed(st, inputs[0]);
      Guarded(st, inputs[0]) && GuardedRun(Step(st, inputs[0]).0, inputs[1..])
  }

  /** Over a guarded run, timestamps of the frames handed on never decrease. */
  lemma {:induction false} RunOrdered(st: State, inputs: seq<Input>, last: nat, clock: nat)
    requires AllWellFormed(st.table) && LegalRun(inputs, |st.table|)
    requires TimedRun(inputs, clock) && GuardedRun(st, inputs)
    requires last <= clock && NotBefore(st.table, last) && Bounded(st.table, clock)
    ensures Ordered(Run(st, inputs).1)
    ensures forall k :: 0 <= k < |Run(st, inputs).1| ==> last <= Run(st, inputs).1[k].timestamp
    decreases |inputs|
  {
    if inputs != [] {
      StepKeepsWellFormed(st, inputs[0]);
      StepOrderly(st, inputs[0], last, clock);
      var (next, out) := Step(st, inputs[0]);
      RunOrdered(next, inputs[1..], EndOf(out, last), ClockAfter(inputs[0].event, clock));
    }
  }

  /** Retransmission is on and every datagram says it is supported. */
  predicate Retransmitting(inputs: seq<Input>) {
    forall k :: 0 <= k < |inputs| ==>
      inputs[k].cfg.mode != 0 && (inputs[k].event.Datagram? ==> inputs[k].event.resendable)
  }

  lemma {:induction false} RetransmittingIsGuarded(st: State, inputs: seq<Input>)
    requires AllWellFormed(st.table) && LegalRun(inputs, |st.table|) && Retransmitting(inputs)
    ensures GuardedRun(st, inputs)
    decreases |inputs|
  {
    if inputs != [] {
      StepKeepsWellFormed(st, inputs[0]);
      RetransmittingIsGuarded(Step(st, inputs[0]).0, inputs[1..]);
    }
  }

  /** With retransmission, from the start, delivery is in order in every run. */
  lemma {:induction false} RetransmittingRunsAreOrdered(slots: nat, inputs: seq<Input>)
    requires LegalRun(inputs, slots) && TimedRun(inputs, 0) && Retransmitting(inputs)
    ensures Ordered(Run(Start(slots), inputs).1)
  {
    RetransmittingIsGuarded(Start(slots), inputs);
    RunOrdered(Start(slots), inputs, 0, 0);
  }

  // ---- The guard is exact ----

  /** A frame that is in use at a check late enough, with no attempts left, is
      handed on by the check. */
  lemma {:induction false} LateCheckDelivers(t: Table, n: nat, j: nat, now: nat, cfg: Config, support: bool,
                                             sent: seq<SendResult>)
    requires j < n <= |t| == |sent| && Active(t[j])
    requires cfg.maxAttempts <= 0.0 && forall k :: 0 <= k < |t| ==> TimedOut(t[k], now, cfg) || !Active(t[k])
    requires forall k :: 0 <= k < |t| ==> t[k].retryTime <= now
    ensures t[j] in CheckSlots(t, n, now, cfg, support, sent).1
  {
    var (u, out) := CheckSlots(t, n - 1, now, cfg, support, sent);
    LateCheckOnlyDrains(t, n - 1, now, cfg, support, sent);
    if t[j] !in out {
      assert u[j] == t[j];
      var i := n - 1;
      if j < i {
        LateCheckDelivers(t, i, j, now, cfg, support, sent);
      } else {
        DrainMeans(u, i);
        assert CheckSlot(u, i, now, cfg, support, sent[i]) == Drain(u, i);
      }
    }
  }

  lemma {:induction false} LateCheckOnlyDrains(t: Table, n: nat, now: nat, cfg: Config, support: bool,
                                               sent: seq<SendResult>)
    requires n <= |t| == |sent|
    requires cfg.maxAttempts <= 0.0 && forall k :: 0 <= k < |t| ==> t[k].retryTime <= now
    ensures var (u, out) := CheckSlots(t, n, now, cfg, support, sent);
            |u| == |t| && forall k :: 0 <= k < |t| ==> u[k] == t[k] || (u[k] == Retire(t[k]) && t[k] in out)
  {
    if n > 0 {
      LateCheckOnlyDrains(t, n - 1, now, cfg, support, sent);
      var (u, out) := CheckSlots(t, n - 1, now, cfg, support, sent);
      DrainDelivers(u, n - 1);
    }
  }

  /** Whatever a drain retires it hands on. */
  lemma {:induction false} DrainDelivers(t: Table, i: nat)
    requires i < |t|
    ensures var (u, out) := Drain(t, i);
            |u| == |t| && forall k :: 0 <= k < |t| ==> u[k] == t[k] || (u[k] == Retire(t[k]) && t[k] in out)
    decreases ActiveCount(t)
  {
    var o := OlderThan(t, t[i].timestamp, |t|);
    if o.Some? {
      RetireCounts(t, o.value);
      DrainDelivers(t[o.value := Retire(t[o.value])], i);
    }
  }

  function Latest(t: Table): (r: nat)
    ensures forall k :: 0 <= k < |t| ==> t[k].timeLast <= r && t[k].retryTime <= r
  {
    if t == [] then 0
    else
      var n := |t| - 1;
      var r := Latest(t[..n]);
      var m := if t[n].timeLast > r then t[n].timeLast else r;
      if t[n].retryTime > m then t[n].retryTime else m
  }

  /** However the next timeout check falls, it keeps the order. */
  ghost predicate StaysOrdered(st: State, out: seq<Slot>, clock: nat)
    requires AllWellFormed(st.table)
  {
    forall check: Input :: check.event.Check? && LegalEvent(check.event, |st.table|) && InTime(check.event, clock) ==>
      Ordered(out + Step(st, check).1)
  }

  lemma {:induction false} OlderFrameFollows(t: Table, support: bool, j: nat, clock: nat) returns (check: Input)
    requires AllWellFormed(t) && j < |t| && Active(t[j])
    ensures check.event.Check? && LegalEvent(check.event, |t|) && InTime(check.event, clock)
    ensures t[j] in Step(State(t, support), check).1
  {
    var now := 1 + if Latest(t) > clock then Latest(t) else clock;
    var sent: seq<SendResult> := seq(|t|, _ => None);
    check := Input(Config(1, 0.0, 0, 0.0), Check(now, sent));
    LateCheckDelivers(t, |t|, j, now, check.cfg, support, sent);
  }

  /** The guard is exact: a step keeps every later timeout check in order if
      and only if it hands no frame on past an older one. */
  lemma {:induction false} OrderIffGuarded(st: State, input: Input, last: nat, clock: nat)
    requires AllWellFormed(st.table) && LegalEvent(input.event, |st.table|) && InTime(input.event, clock)
    requires last <= clock && NotBefore(st.table, last) && Bounded(st.table, clock)
    ensures AllWellFormed(Step(st, input).0.table)
    ensures Guarded(st, input) <==> StaysOrdered(Step(st, input).0, Step(st, input).1, ClockAfter(input.event, clock))
  {
    StepKeepsWellFormed(st, input);
    if Guarded(st, input) {
      GuardedStaysOrdered(st, input, last, clock);
    } else {
      TakeInKeepsWellFormed(st.table, input.event.content);
      var (u, i) := TakeIn(st.table, input.event.content);
      var j :| 0 <= j < |u| && Active(u[j]) && u[j].timestamp < u[i.value].timestamp;
      var (next, out) := Step(st, input);
      assert out == [u[i.value]] && next.table[j] == u[j];
      var check := OlderFrameFollows(next.table, next.support, j, ClockAfter(input.event, clock));
      var later := Step(next, check).1;
      var k :| 0 <= k < |later| && later[k] == u[j];
      assert (out + later)[0] == u[i.value] && (out + later)[1 + k] == u[j];
      assert !Ordered(out + later);
    }
  }

  lemma {:induction false} GuardedStaysOrdered(st: State, input: Input, last: nat, clock: nat)
    requires AllWellFormed(st.table) && LegalEvent(input.event, |st.table|) && InTime(input.event, clock)
    requires last <= clock && NotBefore(st.table, last) && Bounded(st.table, clock) && Guarded(st, input)
    ensures AllWellFormed(Step(st, input).0.table)
    ensures StaysOrdered(Step(st, input).0, Step(st, input).1, ClockAfter(input.event, clock))
  {
    StepKeepsWellFormed(st, input);
    StepOrderly(st, input, last, clock);
    var (next, out) := Step(st, input);
    var clock' := ClockAfter(input.event, clock);
    forall check: Input | check.event.Check? && LegalEvent(check.event, |next.table|) && InTime(check.event, clock')
      ensures Ordered(out + Step(next, check).1)
    {
      var end := EndOf(out, last);
      assert end <= clock';
      StepOrderly(next, check, end, clock');
      var (next', out') := Step(next, check);
    }
  }

  const ELDER: Slot := Slot(5, 1, 2, [9, 0], 1, 0, 2, [0, 0], [1, 0], 5, 5, 0)

  const ELDER_ARRIVES: Input :=
    Input(Config(0, 10.0, 10, 3.0), Datagram(false, Data(Packet(1, 0, 2, 2, 0, [9], false), 5, 5, [0, 0], NOTHING)))

  const YOUNG_ARRIVES: Input :=
    Input(Config(0, 10.0, 10, 3.0), Datagram(false, Data(Packet(2, 0, 1, 1, 0, [7], false), 6, 6, [0], NOTHING)))

  lemma {:induction false} ElderWaits()
    ensures LegalEvent(ELDER_ARRIVES.event, 2)
    ensures Step(Start(2), ELDER_ARRIVES) == (State([EMPTY, ELDER], false), [])
  {
    var t := Start(2).table;
    var p := ELDER_ARRIVES.event.content.p;
    assert t == [EMPTY, EMPTY];
    FindMeans(t, 1, 2);
    var made := Init(EMPTY, 5, 1, 2, 2, [0, 0]).value;
    assert made.sizes == [0, 0] && made.starts == [0, 0];
    assert t[1 := made] == [EMPTY, made];
    assert Claim(t, p, 5, [0, 0]) == Some(([EMPTY, made], 1));
    assert Write([0, 0], 0, [9]) == [9, 0];
    assert Store(made, 0, 0, [9], 5) == ELDER;
    assert [EMPTY, made][1 := ELDER] == [EMPTY, ELDER];
    assert TakeIn(t, ELDER_ARRIVES.event.content) == ([EMPTY, ELDER], Some(1));
  }

  lemma {:induction false} YoungOvertakes()
    requires AllWellFormed([EMPTY, ELDER]) && LegalEvent(YOUNG_ARRIVES.event, 2)
    ensures !Guarded(State([EMPTY, ELDER], false), YOUNG_ARRIVES)
  {
    var t := [EMPTY, ELDER];
    var p := YOUNG_ARRIVES.event.content.p;
    FindMeans(t, 2, 2);
    assert Free(t, 1) == Some(0);
    var made := Init(EMPTY, 6, 2, 1, 1, [0]).value;
    assert t[0 := made] == [made, ELDER];
    assert Claim(t, p, 6, [0]) == Some(([made, ELDER], 0));
    var (u, i) := TakeIn(t, YOUNG_ARRIVES.event.content);
    assert u == [Store(made, 0, 0, [7], 6), ELDER];
    assert Active(u[1]) && u[1].timestamp == 5 < u[0].timestamp;
  }

  lemma {:induction false} CheckFollows() returns (check: Input)
    requires AllWellFormed([EMPTY, ELDER]) && LegalEvent(YOUNG_ARRIVES.event, 2)
    ensures check.event.Check? && LegalEvent(check.event, 2) && InTime(check.event, 6)
    ensures var (next, out) := Step(State([EMPTY, ELDER], false), YOUNG_ARRIVES);
            |next.table| == 2 && AllWellFormed(next.table) && !Ordered(out + Step(next, check).1)
  {
    var st := State([EMPTY, ELDER], false);
    YoungOvertakes();
    StepKeepsWellFormed(st, YOUNG_ARRIVES);
    OrderIffGuarded(st, YOUNG_ARRIVES, 0, 5);
    var (next, out) := Step(st, YOUNG_ARRIVES);
    assert ClockAfter(YOUNG_ARRIVES.event, 5) == 6 && !StaysOrdered(next, out, 6);
    check :| check.event.Check? && LegalEvent(check.event, |next.table|) && InTime(check.event, 6)
             && !Ordered(out + Step(next, check).1);
  }

  lemma {:induction false} TimedThree(a: Input, b: Input, c: Input)
    requires InTime(a.event, 0) && InTime(b.event, ClockAfter(a.event, 0))
    requires InTime(c.event, ClockAfter(b.event, ClockAfter(a.event, 0)))
    ensures TimedRun([a, b, c], 0)
  {
    var inputs := [a, b, c];
    assert inputs[1..] == [b, c] && [b, c][1..] == [c] && [c][1..] == [];
    var clock := ClockAfter(b.event, ClockAfter(a.event, 0));
    assert TimedRun([c][1..], ClockAfter(c.event, clock));
    assert TimedRun([b, c][1..], clock);
  }

  /** The guard cannot be dropped: with the mode off there is a run from the
      start that hands on a younger frame before an older one. */
  lemma {:induction false} DirectDeliveryCanOvertake()
    ensures exists inputs: seq<Input> ::
              LegalRun(inputs, 2) && TimedRun(inputs, 0) && !Ordered(Run(Start(2), inputs).1)
  {
    ElderWaits();
    StepKeepsWellFormed(Start(2), ELDER_ARRIVES);
    var check := CheckFollows();
    var inputs := [ELDER_ARRIVES, YOUNG_ARRIVES, check];
    TimedThree(ELDER_ARRIVES, YOUNG_ARRIVES, check);
    ThreeSteps(Start(2), inputs);
    var (next, out) := Step(State([EMPTY, ELDER], false), YOUNG_ARRIVES);
    assert [] + out == out;
    assert Run(Start(2), inputs).1 == out + Step(next, check).1;
  }

  lemma {:induction false} ThreeSteps(st: State, inputs: seq<Input>)
    requires AllWellFormed(st.table) && LegalRun(inputs, |st.table|) && |inputs| == 3
    ensures var (st1, out1) := Step(st, inputs[0]);
            AllWellFormed(st1.table) && |st1.table| == |st.table|
            && var (st2, out2) := Step(st1, inputs[1]);
               AllWellFormed(st2.table) && |st2.table| == |st.table|
               && Run(st, inputs).1 == out1 + out2 + Step(st2, inputs[2]).1
  {
    StepKeepsWellFormed(st, inputs[0]);
    var (st1, out1) := Step(st, inputs[0]);
    StepKeepsWellFormed(st1, inputs[1]);
    var (st2, out2) := Step(st1, inputs[1]);
    StepKeepsWellFormed(st2, inputs[2]);
    var rest := inputs[1..][1..];
    assert Run(Step(st2, rest[0]).0, rest[1..]).1 == [];
    assert Run(st2, rest).1 == Step(st2, inputs[2]).1 + [];
    assert Run(st1, inputs[1..]).1 == out2 + Run(st2, rest).1;
  }
}
