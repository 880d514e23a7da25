/** Where the parser looks for a gap at the end of the previous frame
    (protocol v2): in which runs it stays within that frame's table of sizes,
    and a run in which it does not. */
module FrameLookup {
  import opened FrameFaithful
  import opened FrameRuns
  import opened FrameTable
  import opened Types

  /** The previous frame whose table is looked at, and the number of packets of
      the current frame, when an input is taken in; None if there is no look. */
  function LooksAt(st: State, input: Input): (r: Option<(Slot, nat)>)
    requires AllWellFormed(st.table) && LegalEvent(input.event, |st.table|)
    ensures r.Some? ==> 0 < r.value.1 && 0 < r.value.0.total <= |r.value.0.sizes|
  {
    if !(input.event.Datagram? && input.event.content.Data?) then None
    else
      TakeInKeepsWellFormed(st.table, input.event.content);
      var (u, i) := TakeIn(st.table, input.event.content);
      if i.None? || input.cfg.mode != 1 || !input.event.resendable || Complete(u[i.value]) then None
      else if !LooksBack(u[i.value].sizes, input.event.content.p.packetCounter) then None
      else
        var previous := NewestBefore(u, u[i.value].timestamp, |u|);
        if previous.None? then None else Some((u[previous.value], u[i.value].total))
  }

  predicate StaysInside(st: State, input: Input)
    requires AllWellFormed(st.table) && LegalEvent(input.event, |st.table|)
  {
    var at := LooksAt(st, input);
    at.Some? ==> at.value.1 <= |at.value.0.sizes|
  }

  /** No look of the run leaves a table. */
  predicate RunStaysInside(st: State, inputs: seq<Input>)
    requires AllWellFormed(st.table) && LegalRun(inputs, |st.table|)
    decreases |inputs|
  {
    if inputs == [] then true
    else
      StepKeepsWellFormed(st, inputs[0]);
      StaysInside(st, inputs[0]) && RunStaysInside(Step(st, inputs[0]).0, inputs[1..])
  }

  /** The same input with something else standing beyond the table and another
      outcome of the request for the previous frame. */
  function Otherwise(input: Input, beyond: nat, sentPrevious: SendResult): Input
    requires input.event.Datagram? && input.event.content.Data?
  {
    var c := input.event.content;
    var o := Outside(beyond, sentPrevious, c.outside.sentOwn);
    input.(event := Datagram(input.event.resendable, Data(c.p, c.now, c.later, c.buffer, o)))
  }

  lemma {:induction false} OutsideMatters(st: State, input: Input)
    requires AllWellFormed(st.table) && LegalEvent(input.event, |st.table|)
    requires input.event.Datagram? && input.event.content.Data? && !StaysInside(st, input)
    ensures exists sent: SendResult :: Step(st, Otherwise(input, 0, sent)) != Step(st, Otherwise(input, 1, sent))
  {
    var c := input.event.content;
    TakeInKeepsWellFormed(st.table, c);
    var (u, i) := TakeIn(st.table, c);
    var k := NewestBefore(u, u[i.value].timestamp, |u|).value;
    var sent: SendResult := Some(u[k].retryTime + 1);
    var with, without := Otherwise(input, 0, sent), Otherwise(input, 1, sent);
    assert Step(st, with).0.table[k].retryTime == u[k].retryTime + 1 + input.cfg.interval;
    assert Step(st, without).0.table[k].retryTime == u[k].retryTime;
  }

  lemma {:induction false} InsideDoesNotMatter(st: State, input: Input, a: nat, b: nat, sent: SendResult)
    requires AllWellFormed(st.table) && LegalEvent(input.event, |st.table|)
    requires input.event.Datagram? && input.event.content.Data? && StaysInside(st, input)
    ensures Step(st, Otherwise(input, a, sent)) == Step(st, Otherwise(input, b, sent))
  {
  }

  /** What stands beyond the table makes no difference to a step, whatever the
      outcome of the request, exactly when the look stays in the table. */
  lemma {:induction false} StaysInsideIffNoMatter(st: State, input: Input)
    requires AllWellFormed(st.table) && LegalEvent(input.event, |st.table|)
    requires input.event.Datagram? && input.event.content.Data?
    ensures StaysInside(st, input) <==>
            forall a: nat, b: nat, sent: SendResult ::
              Step(st, Otherwise(input, a, sent)) == Step(st, Otherwise(input, b, sent))
  {
    if StaysInside(st, input) {
      forall a: nat, b: nat, sent: SendResult
        ensures Step(st, Otherwise(input, a, sent)) == Step(st, Otherwise(input, b, sent))
      {
        InsideDoesNotMatter(st, input, a, b, sent);
      }
    } else {
      OutsideMatters(st, input);
    }
  }

  // ---- Frames of equal totals ----

  /** Every frame in use has n packets. */
  predicate Uniform(t: Table, n: nat) {
    forall k :: 0 <= k < |t| && Active(t[k]) ==> t[k].total == n
  }

  predicate SameTotals(inputs: seq<Input>, n: nat) {
    forall k :: 0 <= k < |inputs| && inputs[k].event.Datagram? && inputs[k].event.content.Data? ==>
      inputs[k].event.content.p.total == n
  }

  lemma {:induction false} MarkNdaTotal(s: Slot, counters: seq<nat>)
    ensures MarkNda(s, counters).total == s.total && MarkNda(s, counters).timestamp == s.timestamp
    decreases |counters|
  {
    if counters != [] && counters[0] < s.total && counters[0] < |s.sizes| {
      MarkNdaTotal(s.(nda := (s.nda + 1) % UINT16_RANGE, sizes := s.sizes[counters[0] := NDA]), counters[1..]);
    }
  }

  lemma {:induction false} TakeInUniform(t: Table, c: Content, n: nat)
    requires AllWellFormed(t) && LegalContent(c) && Uniform(t, n) && (c.Data? ==> c.p.total == n)
    ensures Uniform(TakeIn(t, c).0, n)
  {
    if c.Unavailable? && Find(t, c.frameCounter, |t|).Some? {
      MarkNdaTotal(t[Find(t, c.frameCounter, |t|).value], c.counters);
    }
  }

  /** If all frames have equally many packets, no look leaves a table. */
  lemma {:induction false} EqualTotalsStayInside(st: State, inputs: seq<Input>, n: nat)
    requires AllWellFormed(st.table) && LegalRun(inputs, |st.table|)
    requires Uniform(st.table, n) && SameTotals(inputs, n)
    ensures RunStaysInside(st, inputs)
    decreases |inputs|
  {
    if inputs != [] {
      StepKeepsWellFormed(st, inputs[0]);
      StepSameFrames(st, inputs[0]);
      if inputs[0].event.Datagram? {
        TakeInUniform(st.table, inputs[0].event.content, n);
        TakeInKeepsWellFormed(st.table, inputs[0].event.content);
      }
      EqualTotalsStayInside(Step(st, inputs[0]).0, inputs[1..], n);
    }
  }

  // ---- Frames of different totals ----

  const CFG: Config := Config(1, 10.0, 10, 3.0)

  /** Packet 0 of a frame of two packets, then of one of three. */
  const SHORT_ARRIVES: Input :=
    Input(CFG, Datagram(true, Data(Packet(1, 0, 2, 2, 0, [9], false), 5, 5, [0, 0], NOTHING)))

  const LONG_ARRIVES: Input :=
    Input(CFG, Datagram(true, Data(Packet(2, 0, 3, 3, 0, [7], false), 6, 6, [0, 0, 0], NOTHING)))

  const SHORT_FRAME: SentFrame := SentFrame([9, 8], [0, 1, 2])

  const LONG_FRAME: SentFrame := SentFrame([7, 6, 5], [0, 1, 2, 3])

  const SENDER: Sender := map[1 := SHORT_FRAME, 2 := LONG_FRAME]

  const SHORT: Slot := Slot(5, 1, 2, [9, 0], 1, 0, 2, [0, 0], [1, 0], 5, 5, 0)

  lemma {:induction false} ShortWaits()
    ensures LegalEvent(SHORT_ARRIVES.event, 4)
    ensures Step(Start(4), SHORT_ARRIVES) == (State([EMPTY, EMPTY, EMPTY, SHORT], true), [])
  {
    var t := Start(4).table;
    var p := SHORT_ARRIVES.event.content.p;
    assert t == [EMPTY, EMPTY, EMPTY, EMPTY];
    FindMeans(t, 1, 4);
    var made := Init(EMPTY, 5, 1, 2, 2, [0, 0]).value;
    assert made.sizes == [0, 0] && made.starts == [0, 0];
    assert t[3 := made] == [EMPTY, EMPTY, EMPTY, made];
    assert Claim(t, p, 5, [0, 0]) == Some(([EMPTY, EMPTY, EMPTY, made], 3));
    assert Write([0, 0], 0, [9]) == [9, 0];
    assert Store(made, 0, 0, [9], 5) == SHORT;
    var u := [EMPTY, EMPTY, EMPTY, SHORT];
    assert [EMPTY, EMPTY, EMPTY, made][3 := SHORT] == u;
    assert TakeIn(t, SHORT_ARRIVES.event.content) == (u, Some(3));
    NewestBeforeMeans(u, 5, 4);
  }

  lemma {:induction false} LongLooksOutside()
    requires AllWellFormed([EMPTY, EMPTY, EMPTY, SHORT]) && LegalEvent(LONG_ARRIVES.event, 4)
    ensures LooksAt(State([EMPTY, EMPTY, EMPTY, SHORT], true), LONG_ARRIVES) == Some((SHORT, 3))
  {
    var t := [EMPTY, EMPTY, EMPTY, SHORT];
    var p := LONG_ARRIVES.event.content.p;
    FindMeans(t, 2, 4);
    assert Free(t, 3) == Some(2);
    var made := Init(EMPTY, 6, 2, 3, 3, [0, 0, 0]).value;
    var r := Store(made, 0, 0, [7], 6);
    assert t[2 := made] == [EMPTY, EMPTY, made, SHORT];
    assert Claim(t, p, 6, [0, 0, 0]) == Some(([EMPTY, EMPTY, made, SHORT], 2));
    var u := [EMPTY, EMPTY, r, SHORT];
    assert [EMPTY, EMPTY, made, SHORT][2 := r] == u;
    assert TakeIn(t, LONG_ARRIVES.event.content) == (u, Some(2));
    NewestBeforeMeans(u, 6, 4);
    assert NewestBefore(u, 6, 4) == Some(3);
  }

  lemma {:induction false} SenderIsHonest()
    ensures Honest(SENDER)
  {
    ShortTiles();
    LongTiles();
    assert SENDER.Keys == {1, 2};
  }

  lemma {:induction false} ShortIsGenuine()
    ensures FromSender(SHORT_ARRIVES, SENDER)
  {
    SenderIsHonest();
    assert SENDER[1] == SHORT_FRAME && [9, 8][0..1] == [9];
  }

  lemma {:induction false} LongIsGenuine()
    ensures FromSender(LONG_ARRIVES, SENDER)
  {
    SenderIsHonest();
    assert SENDER[2] == LONG_FRAME && [7, 6, 5][0..1] == [7];
  }

  lemma {:induction false} ShortTiles()
    ensures Tiles(SHORT_FRAME)
  {
  }

  lemma {:induction false} LongTiles()
    ensures Tiles(LONG_FRAME)
  {
  }

  lemma {:induction false} RunOfTwo(st: State, a: Input, b: Input)
    requires AllWellFormed(st.table) && LegalEvent(a.event, |st.table|) && LegalEvent(b.event, |st.table|)
    ensures LegalRun([a, b], |st.table|)
    ensures AllWellFormed(Step(st, a).0.table) && |Step(st, a).0.table| == |st.table|
    ensures RunStaysInside(st, [a, b]) ==> StaysInside(Step(st, a).0, b)
  {
    StepKeepsWellFormed(st, a);
    var rest := [a, b][1..];
    assert rest == [b];
    if RunStaysInside(st, [a, b]) {
      assert RunStaysInside(Step(st, a).0, rest);
    }
  }

  /** Two datagrams of an honest sender are enough for a look beyond the table. */
  lemma {:induction false} LongerFrameLooksOutside()
    ensures exists sender: Sender, inputs: seq<Input> ::
              && |inputs| == 2 && LegalRun(inputs, 4)
              && FromSender(inputs[0], sender) && FromSender(inputs[1], sender)
              && !RunStaysInside(Start(4), inputs)
  {
    SenderIsHonest();
    ShortIsGenuine();
    LongIsGenuine();
    ShortWaits();
    assert LegalEvent(LONG_ARRIVES.event, 4);
    RunOfTwo(Start(4), SHORT_ARRIVES, LONG_ARRIVES);
    LongLooksOutside();
    assert !StaysInside(State([EMPTY, EMPTY, EMPTY, SHORT], true), LONG_ARRIVES);
    var inputs := [SHORT_ARRIVES, LONG_ARRIVES];
    assert FromSender(inputs[0], SENDER) && FromSender(inputs[1], SENDER);
  }
}
