/** Retransmission requests for a frame are bounded (protocol v2): a retry
    count never passes the limit, every complete request that succeeds is
    counted, and a frame that gets no more packets leaves the table. */
module FrameRetry {
  import opened Types
  import opened FrameTable
  import opened FrameRuns

  /** What a timeout check does to a slot that it reaches. */
  function Checked(s: Slot, now: nat, cfg: Config, support: bool, sent: SendResult): Slot {
    if !TimedOut(s, now, cfg) then s
    else if !support then Retire(s)
    else if now < s.retryTime then s
    else if s.retryCount as real >= cfg.maxAttempts then Retire(s)
    else if sent.None? then s
    else Requested(s, sent, cfg.interval).(retryCount := (s.retryCount + 1) % UINT16_RANGE)
  }

  /** A slot goes through its own check, unless the drain for another frame
      takes it out. */
  lemma {:induction false} CheckSlotsActOnEach(t: Table, n: nat, now: nat, cfg: Config, support: bool,
                                               sent: seq<SendResult>)
    requires n <= |t| == |sent|
    ensures var u := CheckSlots(t, n, now, cfg, support, sent).0;
            && |u| == |t|
            && (forall k :: 0 <= k < n ==> u[k] == Checked(t[k], now, cfg, support, sent[k]) || u[k] == Retire(t[k])
                                           || u[k] == Retire(Checked(t[k], now, cfg, support, sent[k])))
            && (forall k :: n <= k < |t| ==> u[k] == t[k] || u[k] == Retire(t[k]))
  {
    if n > 0 {
      CheckSlotsActOnEach(t, n - 1, now, cfg, support, sent);
      CheckSlotActs(CheckSlots(t, n - 1, now, cfg, support, sent).0, n - 1, now, cfg, support, sent[n - 1]);
    }
  }

  lemma {:induction false} CheckSlotActs(t: Table, i: nat, now: nat, cfg: Config, support: bool, sent: SendResult)
    requires i < |t|
    ensures var u := CheckSlot(t, i, now, cfg, support, sent).0;
            && |u| == |t| && u[i] == Checked(t[i], now, cfg, support, sent)
            && forall k :: 0 <= k < |t| && k != i ==> u[k] == t[k] || u[k] == Retire(t[k])
  {
    if Active(t[i]) {
      DrainMeans(t, i);
      DrainConserves(t, i);
    }
  }

  // ---- The count stays within the limit ----

  /** How many requests a limit allows: the limit is a float in the code, any
      number here, and a frame is given up once its count is not below it. */
  function Attempts(m: real): nat {
    if m <= 0.0 then 0 else if m.Floor as real == m then m.Floor else m.Floor + 1
  }

  lemma {:induction false} AttemptsMeans(m: real, retryCount: nat)
    ensures retryCount as real >= m <==> retryCount >= Attempts(m)
    ensures Attempts(m) < UINT16_RANGE <==> m <= 65535.0
  {
    if m > 0.0 && retryCount as real >= m {
      assert retryCount >= m.Floor;
    }
  }

  predicate AllWithin(t: Table, limit: nat) {
    forall k :: 0 <= k < |t| ==> t[k].retryCount <= limit
  }

  lemma {:induction false} TakeInRetries(t: Table, c: Content)
    requires AllWellFormed(t) && LegalContent(c)
    ensures var u := TakeIn(t, c).0;
            forall k :: 0 <= k < |t| ==>
              u[k].retryCount == t[k].retryCount
                || (u[k].retryCount == 0 && !(Active(t[k]) && t[k].frameCounter == u[k].frameCounter))
  {
    match c
    case Rejected =>
    case Data(p, now, later, buffer, _) => FindMeans(t, p.frameCounter, |t|);
    case Unavailable(frameCounter, first, counters) =>
      var found := Find(t, frameCounter, |t|);
      if found.Some? {
        MarkNdaKeepsWellFormed(t[found.value], counters);
      }
  }

  lemma {:induction false} DrainRetries(t: Table, i: nat)
    requires i < |t|
    ensures var u := Drain(t, i).0;
            |u| == |t| && forall k :: 0 <= k < |t| ==> u[k].retryCount == t[k].retryCount
  {
    DrainConserves(t, i);
  }

  lemma {:induction false} AfterPacketRetries(t: Table, i: nat, packetCounter: Option<nat>, cfg: Config, support: bool,
                                                o: Outside)
    requires AllWellFormed(t) && i < |t| && Active(t[i])
    requires packetCounter.Some? ==> packetCounter.value < t[i].total
    ensures var u := AfterPacket(t, i, packetCounter, cfg, support, o).0;
            |u| == |t| && forall k :: 0 <= k < |t| ==> u[k].retryCount == t[k].retryCount
  {
    DrainRetries(t, i);
  }

  lemma {:induction false} StepContentRetries(t: Table, cfg: Config, resendable: bool, c: Content)
    requires AllWellFormed(t) && LegalContent(c)
    ensures var u, v := TakeIn(t, c).0, StepContent(t, cfg, resendable, c).0;
            |v| == |u| && forall k :: 0 <= k < |u| ==> v[k].retryCount == u[k].retryCount
  {
    TakeInKeepsWellFormed(t, c);
    var (u, i) := TakeIn(t, c);
    if i.Some? {
      if c.Data? {
        AfterPacketRetries(u, i.value, Some(c.p.packetCounter), cfg, resendable, c.outside);
      } else {
        AfterPacketRetries(u, i.value, None, cfg, resendable, NOTHING);
      }
    }
  }

  lemma {:induction false} CheckWithin(st: State, cfg: Config, time: nat, sent: seq<SendResult>)
    requires |sent| == |st.table| && cfg.maxAttempts <= 65535.0 && AllWithin(st.table, Attempts(cfg.maxAttempts))
    ensures AllWithin(CheckSlots(st.table, |st.table|, time, cfg, st.support, sent).0, Attempts(cfg.maxAttempts))
  {
    CheckSlotsActOnEach(st.table, |st.table|, time, cfg, st.support, sent);
    var u := CheckSlots(st.table, |st.table|, time, cfg, st.support, sent).0;
    forall k | 0 <= k < |u| ensures u[k].retryCount <= Attempts(cfg.maxAttempts) {
      var s := st.table[k];
      AttemptsMeans(cfg.maxAttempts, s.retryCount);
      assert s.retryCount <= Attempts(cfg.maxAttempts);
      assert Checked(s, time, cfg, st.support, sent[k]).retryCount <= Attempts(cfg.maxAttempts);
    }
  }

  lemma {:induction false} StepWithin(st: State, input: Input)
    requires AllWellFormed(st.table) && LegalEvent(input.event, |st.table|)
    requires input.cfg.maxAttempts <= 65535.0 && AllWithin(st.table, Attempts(input.cfg.maxAttempts))
    ensures AllWithin(Step(st, input).0.table, Attempts(input.cfg.maxAttempts))
  {
    match input.event
    case Datagram(resendable, c) =>
      TakeInRetries(st.table, c);
      StepContentRetries(st.table, input.cfg, resendable, c);
    case Check(time, sent) =>
      CheckWithin(st, input.cfg, time, sent);
  }

  /** With a fixed limit of at most 65535, whole or not, no retry count passes
      it in any run by as much as one. */
  lemma {:induction false} RetryCountsWithin(st: State, inputs: seq<Input>, m: real)
    requires AllWellFormed(st.table) && LegalRun(inputs, |st.table|)
    requires m <= 65535.0 && AllWithin(st.table, Attempts(m))
    requires forall k :: 0 <= k < |inputs| ==> inputs[k].cfg.maxAttempts == m
    ensures AllWithin(Run(st, inputs).0.table, Attempts(m))
    decreases |inputs|
  {
    if inputs != [] {
      StepKeepsWellFormed(st, inputs[0]);
      StepWithin(st, inputs[0]);
      RetryCountsWithin(Step(st, inputs[0]).0, inputs[1..], m);
    }
  }

  // ---- Every successful complete request is counted ----

  /** The check acts on slot i: no reason is left to spare the frame. */
  predicate Presses(st: State, input: Input, i: nat)
    requires AllWellFormed(st.table) && LegalEvent(input.event, |st.table|) && i < |st.table|
  {
    match input.event
    case Datagram(_, _) => false
    case Check(time, sent) =>
      && TimedOut(st.table[i], time, input.cfg)
      && (st.support ==>
        time >= st.table[i].retryTime && (sent[i].Some? || st.table[i].retryCount as real >= input.cfg.maxAttempts))
  }

  /** How many checks of the run act on slot i. */
  function Pressed(st: State, inputs: seq<Input>, i: nat): nat
    requires AllWellFormed(st.table) && LegalRun(inputs, |st.table|) && i < |st.table|
    decreases |inputs|
  {
    if inputs == [] then 0
    else
      StepKeepsWellFormed(st, inputs[0]);
      (if Presses(st, inputs[0], i) then 1 else 0) + Pressed(Step(st, inputs[0]).0, inputs[1..], i)
  }

  /** Slot i is in use for the same frame all through the run. */
  predicate Stays(st: State, inputs: seq<Input>, i: nat)
    requires AllWellFormed(st.table) && LegalRun(inputs, |st.table|) && i < |st.table|
    decreases |inputs|
  {
    if inputs == [] then Active(st.table[i])
    else
      StepKeepsWellFormed(st, inputs[0]);
      var next := Step(st, inputs[0]).0;
      Active(st.table[i]) && next.table[i].frameCounter == st.table[i].frameCounter && Stays(next, inputs[1..], i)
  }

  lemma {:induction false} CheckCounts(st: State, input: Input, i: nat)
    requires AllWellFormed(st.table) && LegalEvent(input.event, |st.table|) && i < |st.table| && input.event.Check?
    requires input.cfg.maxAttempts <= 65535.0 && st.table[i].retryCount <= Attempts(input.cfg.maxAttempts)
    requires |Step(st, input).0.table| == |st.table| && Active(Step(st, input).0.table[i])
    ensures Step(st, input).0.table[i].retryCount == st.table[i].retryCount + if Presses(st, input, i) then 1 else 0
  {
    var time, sent := input.event.time, input.event.sent;
    CheckSlotsActOnEach(st.table, |st.table|, time, input.cfg, st.support, sent);
    assert Active(CheckSlots(st.table, |st.table|, time, input.cfg, st.support, sent).0[i]);
    AttemptsMeans(input.cfg.maxAttempts, st.table[i].retryCount);
    assert Step(st, input).0.table[i] == Checked(st.table[i], time, input.cfg, st.support, sent[i]);
  }

  lemma {:induction false} DatagramCounts(st: State, input: Input, i: nat)
    requires AllWellFormed(st.table) && LegalEvent(input.event, |st.table|) && i < |st.table| && input.event.Datagram?
    requires |Step(st, input).0.table| == |st.table| && Active(st.table[i])
    requires Step(st, input).0.table[i].frameCounter == st.table[i].frameCounter
    ensures Step(st, input).0.table[i].retryCount == st.table[i].retryCount
  {
    TakeInRetries(st.table, input.event.content);
    StepContentRetries(st.table, input.cfg, input.event.resendable, input.event.content);
    StepSameFrames(st, input);
  }

  lemma {:induction false} StepCounts(st: State, input: Input, i: nat)
    requires AllWellFormed(st.table) && LegalEvent(input.event, |st.table|) && i < |st.table|
    requires input.cfg.maxAttempts <= 65535.0 && st.table[i].retryCount <= Attempts(input.cfg.maxAttempts)
    requires |Step(st, input).0.table| == |st.table|
    requires Active(st.table[i]) && Active(Step(st, input).0.table[i])
    requires Step(st, input).0.table[i].frameCounter == st.table[i].frameCounter
    ensures Step(st, input).0.table[i].retryCount == st.table[i].retryCount + if Presses(st, input, i) then 1 else 0
  {
    if input.event.Check? {
      CheckCounts(st, input, i);
    } else {
      DatagramCounts(st, input, i);
    }
  }

  /** While a frame stays, whatever else arrives for it or for other frames,
      its retry count is exactly the number of complete requests, and so
      there are no more of them than the limit allows. */
  lemma {:induction false} RequestsAreBounded(st: State, inputs: seq<Input>, i: nat, m: real)
    requires AllWellFormed(st.table) && LegalRun(inputs, |st.table|) && i < |st.table|
    requires m <= 65535.0 && AllWithin(st.table, Attempts(m))
    requires forall k :: 0 <= k < |inputs| ==> inputs[k].cfg.maxAttempts == m
    requires Stays(st, inputs, i)
    ensures |Run(st, inputs).0.table| == |st.table|
    ensures Run(st, inputs).0.table[i].retryCount == st.table[i].retryCount + Pressed(st, inputs, i) <= Attempts(m)
    decreases |inputs|
  {
    if inputs != [] {
      StepKeepsWellFormed(st, inputs[0]);
      StepWithin(st, inputs[0]);
      var next := Step(st, inputs[0]).0;
      assert Active(next.table[i]) by {
        if |inputs| > 1 {
          assert Stays(next, inputs[1..], i);
        }
      }
      StepCounts(st, inputs[0], i);
      RequestsAreBounded(next, inputs[1..], i, m);
    }
  }

  // ---- An idle frame leaves ----

  /** Nothing but checks with successful sends, each after the frame's timeout
      and after the time set by the request before. */
  predicate Idle(inputs: seq<Input>, i: nat, timeLast: nat, retryTime: nat, slots: nat, m: real)
    decreases |inputs|
  {
    inputs != [] ==>
      var input := inputs[0];
      && input.event.Check? && |input.event.sent| == slots && i < slots
      && input.cfg.maxAttempts == m
      && input.event.time as real > timeLast as real + input.cfg.waitTimeout && input.event.time >= retryTime
      && input.event.sent[i].Some?
      && Idle(inputs[1..], i, timeLast, input.event.sent[i].value + input.cfg.interval, slots, m)
  }

  predicate OnlyChecks(inputs: seq<Input>) {
    forall k :: 0 <= k < |inputs| ==> inputs[k].event.Check?
  }

  lemma {:induction false} IdleIsLegal(inputs: seq<Input>, i: nat, timeLast: nat, retryTime: nat, slots: nat, m: real)
    requires Idle(inputs, i, timeLast, retryTime, slots, m)
    ensures LegalRun(inputs, slots) && OnlyChecks(inputs)
    ensures forall k :: 0 <= k < |inputs| ==> inputs[k].cfg.maxAttempts == m
    decreases |inputs|
  {
    if inputs != [] {
      IdleIsLegal(inputs[1..], i, timeLast, inputs[0].event.sent[i].value + inputs[0].cfg.interval, slots, m);
      assert forall k :: 1 <= k < |inputs| ==> inputs[k] == inputs[1..][k - 1];
    }
  }

  lemma {:induction false} ChecksDoNotRevive(st: State, inputs: seq<Input>, i: nat)
    requires AllWellFormed(st.table) && LegalRun(inputs, |st.table|) && i < |st.table|
    requires !Active(st.table[i]) && OnlyChecks(inputs)
    ensures |Run(st, inputs).0.table| == |st.table| && !Active(Run(st, inputs).0.table[i])
    decreases |inputs|
  {
    if inputs != [] {
      StepKeepsWellFormed(st, inputs[0]);
      StepSameFrames(st, inputs[0]);
      ChecksDoNotRevive(Step(st, inputs[0]).0, inputs[1..], i);
    }
  }

  /** How many more requests the limit allows for a frame. */
  function AttemptsLeft(s: Slot, m: real): nat {
    if s.retryCount < Attempts(m) then Attempts(m) - s.retryCount else 0
  }

  /** With sends that succeed and a clock that advances, a frame that gets no
      more packets is gone after as many checks as there are attempts left,
      and one more. */
  lemma {:induction false} IdleFrameLeaves(st: State, inputs: seq<Input>, i: nat, m: real)
    requires AllWellFormed(st.table) && i < |st.table| && m <= 65535.0
    requires Idle(inputs, i, st.table[i].timeLast, st.table[i].retryTime, |st.table|, m)
    requires |inputs| == AttemptsLeft(st.table[i], m) + 1
    ensures LegalRun(inputs, |st.table|)
    ensures |Run(st, inputs).0.table| == |st.table| && !Active(Run(st, inputs).0.table[i])
    decreases |inputs|
  {
    var s := st.table[i];
    IdleIsLegal(inputs, i, s.timeLast, s.retryTime, |st.table|, m);
    StepKeepsWellFormed(st, inputs[0]);
    AttemptsMeans(m, s.retryCount);
    var e := inputs[0].event;
    CheckSlotsActOnEach(st.table, |st.table|, e.time, inputs[0].cfg, st.support, e.sent);
    var next := Step(st, inputs[0]).0;
    if Active(next.table[i]) {
      assert next.table[i] == Checked(s, e.time, inputs[0].cfg, st.support, e.sent[i]);
      IdleFrameLeaves(next, inputs[1..], i, m);
    } else {
      ChecksDoNotRevive(next, inputs[1..], i);
    }
  }

  // ---- Also while others arrive ----

  predicate Held(t: Table, k: nat, frameCounter: nat)
    requires k < |t|
  {
    Active(t[k]) && t[k].frameCounter == frameCounter
  }

  predicate OnlyAt(t: Table, i: nat, frameCounter: nat) {
    forall k :: 0 <= k < |t| && k != i ==> !Held(t, k, frameCounter)
  }

  predicate ForOthers(c: Content, frameCounter: nat) {
    match c
    case Rejected => true
    case Data(p, _, _, _, _) => p.frameCounter != frameCounter
    case Unavailable(other, _, _) => other != frameCounter
  }

  /** No datagram is for the frame, and as long as slot i holds it every check
      acts on it: it comes after the frame's timeout and after the time set by
      the last request, and its send succeeds. */
  predicate Neglected(st: State, inputs: seq<Input>, i: nat, frameCounter: nat, m: real)
    requires AllWellFormed(st.table) && LegalRun(inputs, |st.table|) && i < |st.table|
    decreases |inputs|
  {
    if inputs == [] then true
    else
      StepKeepsWellFormed(st, inputs[0]);
      && (match inputs[0].event
          case Datagram(_, c) => ForOthers(c, frameCounter)
          case Check(_, _) => inputs[0].cfg.maxAttempts == m
                              && (Held(st.table, i, frameCounter) ==> Presses(st, inputs[0], i)))
      && Neglected(Step(st, inputs[0]).0, inputs[1..], i, frameCounter, m)
  }

  function Checks(inputs: seq<Input>): nat {
    if inputs == [] then 0 else (if inputs[0].event.Check? then 1 else 0) + Checks(inputs[1..])
  }

  lemma {:induction false} OthersTakenIn(t: Table, c: Content, frameCounter: nat)
    requires AllWellFormed(t) && LegalContent(c) && ForOthers(c, frameCounter)
    ensures var u := TakeIn(t, c).0;
            forall k :: 0 <= k < |t| && Held(u, k, frameCounter) ==> Held(t, k, frameCounter)
  {
    if c.Unavailable? && Find(t, c.frameCounter, |t|).Some? {
      MarkNdaKeepsWellFormed(t[Find(t, c.frameCounter, |t|).value], c.counters);
    }
  }

  /** Datagrams for other frames and checks do not bring the frame back. */
  lemma {:induction false} OthersDoNotRevive(st: State, input: Input, frameCounter: nat)
    requires AllWellFormed(st.table) && LegalEvent(input.event, |st.table|)
    requires input.event.Datagram? ==> ForOthers(input.event.content, frameCounter)
    ensures var u := Step(st, input).0.table;
            |u| == |st.table|
            && forall k :: 0 <= k < |u| && Held(u, k, frameCounter) ==> Held(st.table, k, frameCounter)
  {
    StepSameFrames(st, input);
    if input.event.Datagram? {
      OthersTakenIn(st.table, input.event.content, frameCounter);
    }
    var t, u := Taken(st, input), Step(st, input).0.table;
    forall k | 0 <= k < |u| && Held(u, k, frameCounter) ensures Held(st.table, k, frameCounter) {
      assert SameFrame(t[k], u[k]);
    }
  }

  /** A check that acts on the frame uses up an attempt or gives the frame up. */
  lemma {:induction false} PressedFrame(st: State, input: Input, i: nat)
    requires AllWellFormed(st.table) && LegalEvent(input.event, |st.table|) && i < |st.table|
    requires input.cfg.maxAttempts <= 65535.0 && Presses(st, input, i)
    ensures var u := Step(st, input).0.table;
            |u| == |st.table| && (Active(u[i]) ==>
              AttemptsLeft(st.table[i], input.cfg.maxAttempts) == AttemptsLeft(u[i], input.cfg.maxAttempts) + 1)
  {
    var e := input.event;
    AttemptsMeans(input.cfg.maxAttempts, st.table[i].retryCount);
    CheckSlotsActOnEach(st.table, |st.table|, e.time, input.cfg, st.support, e.sent);
    var u := Step(st, input).0.table;
    if Active(u[i]) {
      assert u[i] == Checked(st.table[i], e.time, input.cfg, st.support, e.sent[i]);
    }
  }

  lemma {:induction false} NeglectedStep(st: State, input: Input, i: nat, frameCounter: nat, m: real)
    requires AllWellFormed(st.table) && LegalEvent(input.event, |st.table|) && i < |st.table|
    requires m <= 65535.0 && |Step(st, input).0.table| == |st.table|
    requires match input.event
             case Datagram(_, c) => ForOthers(c, frameCounter)
             case Check(_, _) => input.cfg.maxAttempts == m && Presses(st, input, i)
    requires Held(st.table, i, frameCounter) && Held(Step(st, input).0.table, i, frameCounter)
    ensures AttemptsLeft(st.table[i], m)
            == AttemptsLeft(Step(st, input).0.table[i], m) + if input.event.Check? then 1 else 0
  {
    if input.event.Check? {
      PressedFrame(st, input, i);
    } else {
      DatagramCounts(st, input, i);
    }
  }

  /** Whatever arrives for other frames in the meantime, after as many checks as
      there are attempts left, and one more, the frame is gone and stays away. */
  lemma {:induction false} NeglectedFrameLeaves(st: State, inputs: seq<Input>, i: nat, frameCounter: nat, m: real)
    requires AllWellFormed(st.table) && LegalRun(inputs, |st.table|) && i < |st.table| && m <= 65535.0
    requires OnlyAt(st.table, i, frameCounter) && Neglected(st, inputs, i, frameCounter, m)
    requires Held(st.table, i, frameCounter) ==> Checks(inputs) > AttemptsLeft(st.table[i], m)
    ensures var t := Run(st, inputs).0.table;
            |t| == |st.table| && forall k :: 0 <= k < |t| ==> !Held(t, k, frameCounter)
    decreases |inputs|
  {
    if inputs != [] {
      StepKeepsWellFormed(st, inputs[0]);
      OthersDoNotRevive(st, inputs[0], frameCounter);
      var next := Step(st, inputs[0]).0;
      if Held(next.table, i, frameCounter) {
        NeglectedStep(st, inputs[0], i, frameCounter, m);
      }
      NeglectedFrameLeaves(next, inputs[1..], i, frameCounter, m);
    }
  }

  // ---- Limits that are none ----

  /** A limit beyond 65535 is no limit: the count starts over there, so no
      number of checks gives up a frame while retransmission is supported. */
  lemma {:induction false} WideLimitNeverReached(st: State, inputs: seq<Input>, i: nat)
    requires AllWellFormed(st.table) && LegalRun(inputs, |st.table|) && i < |st.table|
    requires st.support && Active(st.table[i]) && AllWithin(st.table, UINT16_RANGE - 1)
    requires OnlyChecks(inputs) && forall k :: 0 <= k < |inputs| ==> inputs[k].cfg.maxAttempts > 65535.0
    ensures |Run(st, inputs).0.table| == |st.table| && Active(Run(st, inputs).0.table[i])
    decreases |inputs|
  {
    if inputs != [] {
      StepKeepsWellFormed(st, inputs[0]);
      var e := inputs[0].event;
      WideCheckOnlyRequests(st.table, |st.table|, e.time, inputs[0].cfg, e.sent);
      WideLimitNeverReached(Step(st, inputs[0]).0, inputs[1..], i);
    }
  }

  lemma {:induction false} WideCheckOnlyRequests(t: Table, n: nat, now: nat, cfg: Config, sent: seq<SendResult>)
    requires n <= |t| == |sent| && AllWithin(t, UINT16_RANGE - 1) && cfg.maxAttempts > 65535.0
    ensures var u := CheckSlots(t, n, now, cfg, true, sent).0;
            |u| == |t| && AllWithin(u, UINT16_RANGE - 1) && forall k :: 0 <= k < |t| ==>
              u[k].timestamp == t[k].timestamp
  {
    if n > 0 {
      WideCheckOnlyRequests(t, n - 1, now, cfg, sent);
    }
  }

  // ---- The limits that are limits ----

  /** A time late enough for a check to act on a frame. */
  function LateEnough(timeLast: nat, retryTime: nat, waitTimeout: real): (time: nat)
    ensures time as real > timeLast as real + waitTimeout && time >= retryTime
  {
    var first := (timeLast as real + waitTimeout).Floor + 1;
    if first > retryTime then first else retryTime
  }

  /** n checks on which the frame is idle, with requests that all succeed. */
  function IdleChecks(n: nat, cfg: Config, timeLast: nat, retryTime: nat, slots: nat): seq<Input> {
    if n == 0 then []
    else
      var time := LateEnough(timeLast, retryTime, cfg.waitTimeout);
      [Input(cfg, Check(time, seq(slots, _ => Some(time))))]
      + IdleChecks(n - 1, cfg, timeLast, time + cfg.interval, slots)
  }

  lemma {:induction false} ChecksAreIdle(n: nat, cfg: Config, i: nat, timeLast: nat, retryTime: nat, slots: nat)
    requires i < slots
    ensures |IdleChecks(n, cfg, timeLast, retryTime, slots)| == n
    ensures Idle(IdleChecks(n, cfg, timeLast, retryTime, slots), i, timeLast, retryTime, slots, cfg.maxAttempts)
    ensures ChecksUnder(IdleChecks(n, cfg, timeLast, retryTime, slots), cfg, slots)
    decreases n
  {
    if n > 0 {
      var time := LateEnough(timeLast, retryTime, cfg.waitTimeout);
      ChecksAreIdle(n - 1, cfg, i, timeLast, time + cfg.interval, slots);
      var rest := IdleChecks(n - 1, cfg, timeLast, time + cfg.interval, slots);
      assert IdleChecks(n, cfg, timeLast, retryTime, slots)[1..] == rest;
    }
  }

  /** A run of checks under one configuration. */
  predicate ChecksUnder(inputs: seq<Input>, cfg: Config, slots: nat) {
    LegalRun(inputs, slots) && OnlyChecks(inputs) && forall k :: 0 <= k < |inputs| ==> inputs[k].cfg == cfg
  }

  /** Some number of checks gives the frame in slot i up. */
  ghost predicate CanBeGivenUp(st: State, cfg: Config, i: nat)
    requires AllWellFormed(st.table) && i < |st.table|
  {
    exists inputs: seq<Input> ::
      && ChecksUnder(inputs, cfg, |st.table|)
      && |Run(st, inputs).0.table| == |st.table| && !Active(Run(st, inputs).0.table[i])
  }

  /** While retransmission is supported, a frame that gets no more packets can
      be given up if and only if the limit is at most 65535. */
  lemma {:induction false} GivenUpIff(st: State, cfg: Config, i: nat)
    requires AllWellFormed(st.table) && i < |st.table| && st.support && Active(st.table[i])
    requires AllWithin(st.table, UINT16_RANGE - 1)
    ensures CanBeGivenUp(st, cfg, i) <==> cfg.maxAttempts <= 65535.0
  {
    if cfg.maxAttempts <= 65535.0 {
      var s := st.table[i];
      var n := AttemptsLeft(s, cfg.maxAttempts) + 1;
      var inputs := IdleChecks(n, cfg, s.timeLast, s.retryTime, |st.table|);
      ChecksAreIdle(n, cfg, i, s.timeLast, s.retryTime, |st.table|);
      IdleFrameLeaves(st, inputs, i, cfg.maxAttempts);
    } else {
      forall inputs: seq<Input> | ChecksUnder(inputs, cfg, |st.table|)
        ensures |Run(st, inputs).0.table| == |st.table| && Active(Run(st, inputs).0.table[i])
      {
        WideLimitNeverReached(st, inputs, i);
      }
    }
  }
}
