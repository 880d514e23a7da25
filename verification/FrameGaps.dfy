/** What is requested in the previous frame (protocol v2): exactly its missing
    tail in runs whose frames have equally many packets; in others a gap can be
    missed, and a packet requested that has been received. */
module FrameGaps {
  import opened FrameFaithful
  import opened FrameLookup
  import opened FrameRuns
  import opened FrameTable
  import opened Retransmission
  import opened Types

  /** The numbers a step requests in the previous frame. */
  function Asked(st: State, input: Input): Option<(nat, nat)>
    requires AllWellFormed(st.table) && LegalEvent(input.event, |st.table|)
  {
    var at := LooksAt(st, input);
    if at.None? then None else PreviousGap(at.value.0, at.value.1, input.event.content.outside.beyond)
  }

  /** A step that looks at the previous frame requests the run of missing
      packets that ends with that frame's last one, as far down as it goes,
      and nothing if there is none. */
  ghost predicate AsksForTail(st: State, input: Input)
    requires AllWellFormed(st.table) && LegalEvent(input.event, |st.table|)
  {
    var at := LooksAt(st, input);
    at.Some? ==>
      var previous := at.value.0;
      forall first: nat, last: nat ::
        Asked(st, input) == Some((first, last)) <==>
          last + 1 == previous.total && MaximalRun(previous.sizes, first, last)
  }

  ghost predicate RunAsksForTails(st: State, inputs: seq<Input>)
    requires AllWellFormed(st.table) && LegalRun(inputs, |st.table|)
    decreases |inputs|
  {
    if inputs == [] then true
    else
      StepKeepsWellFormed(st, inputs[0]);
      AsksForTail(st, inputs[0]) && RunAsksForTails(Step(st, inputs[0]).0, inputs[1..])
  }

  // ---- Frames of equal totals ----

  lemma {:induction false} LookedAtEqual(st: State, input: Input, n: nat)
    requires AllWellFormed(st.table) && LegalEvent(input.event, |st.table|)
    requires Uniform(st.table, n) && SameTotals([input], n)
    ensures var at := LooksAt(st, input);
            at.Some? ==> at.value.0.total == n == at.value.1
  {
    if LooksAt(st, input).Some? {
      assert [input][0] == input;
      TakeInUniform(st.table, input.event.content, n);
      TakeInKeepsWellFormed(st.table, input.event.content);
    }
  }

  lemma {:induction false} EqualTotalAsks(st: State, input: Input, n: nat)
    requires AllWellFormed(st.table) && LegalEvent(input.event, |st.table|)
    requires Uniform(st.table, n) && SameTotals([input], n)
    ensures AsksForTail(st, input)
  {
    LookedAtEqual(st, input, n);
    var at := LooksAt(st, input);
    if at.Some? {
      OwnGapIsMaximal(at.value.0.sizes, n);
    }
  }

  lemma {:induction false} StepUniform(st: State, input: Input, n: nat)
    requires AllWellFormed(st.table) && LegalEvent(input.event, |st.table|)
    requires Uniform(st.table, n) && SameTotals([input], n)
    ensures Uniform(Step(st, input).0.table, n)
  {
    StepSameFrames(st, input);
    if input.event.Datagram? {
      assert [input][0] == input;
      TakeInUniform(st.table, input.event.content, n);
    }
  }

  /** If all frames have equally many packets, every look at a previous frame
      requests its missing tail, whatever stands beyond its table. */
  lemma {:induction false} EqualTotalsAskForTails(st: State, inputs: seq<Input>, n: nat)
    requires AllWellFormed(st.table) && LegalRun(inputs, |st.table|)
    requires Uniform(st.table, n) && SameTotals(inputs, n)
    ensures RunAsksForTails(st, inputs)
    decreases |inputs|
  {
    if inputs != [] {
      StepKeepsWellFormed(st, inputs[0]);
      EqualTotalAsks(st, inputs[0], n);
      StepUniform(st, inputs[0], n);
      EqualTotalsAskForTails(Step(st, inputs[0]).0, inputs[1..], n);
    }
  }

  // ---- Frames of different totals ----

  /** Packets 1 and 2 of the frame of three packets, and later packet 0 of the
      frame of two. */
  const MIDDLE_ARRIVES: Input :=
    Input(CFG, Datagram(true, Data(Packet(2, 1, 3, 3, 1, [6], false), 7, 7, [0, 0, 0], NOTHING)))

  const LAST_ARRIVES: Input :=
    Input(CFG, Datagram(true, Data(Packet(2, 2, 3, 3, 2, [5], false), 7, 7, [0, 0, 0], NOTHING)))

  const SHORT_FOLLOWS: Input :=
    Input(CFG, Datagram(true, Data(Packet(1, 0, 2, 2, 0, [9], false), 8, 8, [0, 0], NOTHING)))

  const LONG: Slot := Slot(6, 2, 3, [7, 0, 0], 1, 0, 3, [0, 0, 0], [1, 0, 0], 6, 6, 0)

  const WITHOUT_LAST: Slot := Slot(6, 2, 3, [7, 6, 0], 2, 0, 3, [0, 1, 0], [1, 1, 0], 7, 6, 0)

  const WITHOUT_MIDDLE: Slot := Slot(6, 2, 3, [7, 0, 5], 2, 0, 3, [0, 0, 2], [1, 0, 1], 7, 6, 0)

  /** A table in which only the last slot may be in use. */
  function Lone(s: Slot): Table {
    [EMPTY, EMPTY, EMPTY, s]
  }

  lemma {:induction false} LongWaits()
    ensures LegalEvent(LONG_ARRIVES.event, 4)
    ensures Step(Start(4), LONG_ARRIVES) == (State(Lone(LONG), true), [])
  {
    var t := Start(4).table;
    var p := LONG_ARRIVES.event.content.p;
    assert t == Lone(EMPTY);
    FindMeans(t, 2, 4);
    var made := Init(EMPTY, 6, 2, 3, 3, [0, 0, 0]).value;
    assert made.sizes == [0, 0, 0] && made.starts == [0, 0, 0];
    assert t[3 := made] == Lone(made);
    assert Claim(t, p, 6, [0, 0, 0]) == Some((Lone(made), 3));
    assert Write([0, 0, 0], 0, [7]) == [7, 0, 0];
    assert Store(made, 0, 0, [7], 6) == LONG;
    assert Lone(made)[3 := LONG] == Lone(LONG);
    assert TakeIn(t, LONG_ARRIVES.event.content) == (Lone(LONG), Some(3));
    NewestBeforeMeans(Lone(LONG), 6, 4);
  }

  lemma {:induction false} MiddleStored()
    requires AllWellFormed(Lone(LONG)) && LegalEvent(MIDDLE_ARRIVES.event, 4)
    ensures Step(State(Lone(LONG), true), MIDDLE_ARRIVES) == (State(Lone(WITHOUT_LAST), true), [])
  {
    var t := Lone(LONG);
    assert Find(t, 2, 4) == Some(3);
    assert Write([7, 0, 0], 1, [6]) == [7, 6, 0];
    assert Store(LONG, 1, 1, [6], 7) == WITHOUT_LAST;
    assert t[3 := WITHOUT_LAST] == Lone(WITHOUT_LAST);
    assert TakeIn(t, MIDDLE_ARRIVES.event.content) == (Lone(WITHOUT_LAST), Some(3));
  }

  lemma {:induction false} LastStored()
    requires AllWellFormed(Lone(LONG)) && LegalEvent(LAST_ARRIVES.event, 4)
    ensures Step(State(Lone(LONG), true), LAST_ARRIVES) == (State(Lone(WITHOUT_MIDDLE), true), [])
  {
    var t := Lone(LONG);
    var u := Lone(WITHOUT_MIDDLE);
    assert Find(t, 2, 4) == Some(3);
    assert Write([7, 0, 0], 2, [5]) == [7, 0, 5];
    assert Store(LONG, 2, 2, [5], 7) == WITHOUT_MIDDLE;
    assert t[3 := WITHOUT_MIDDLE] == u;
    assert TakeIn(t, LAST_ARRIVES.event.content) == (u, Some(3));
    assert OwnGap(WITHOUT_MIDDLE.sizes, 2) == Some((1, 1));
    assert u[3 := u[3]] == u;
  }

  lemma {:induction false} ShortLooksBack(s: Slot)
    requires AllWellFormed(Lone(s)) && LegalEvent(SHORT_FOLLOWS.event, 4)
    requires s.timestamp == 6 && s.frameCounter == 2
    ensures LooksAt(State(Lone(s), true), SHORT_FOLLOWS) == Some((s, 2))
  {
    var t := Lone(s);
    var p := SHORT_FOLLOWS.event.content.p;
    FindMeans(t, 1, 4);
    assert Free(t, 3) == Some(2);
    var made := Init(EMPTY, 8, 1, 2, 2, [0, 0]).value;
    var r := Store(made, 0, 0, [9], 8);
    assert t[2 := made] == [EMPTY, EMPTY, made, s];
    assert Claim(t, p, 8, [0, 0]) == Some(([EMPTY, EMPTY, made, s], 2));
    var u := [EMPTY, EMPTY, r, s];
    assert [EMPTY, EMPTY, made, s][2 := r] == u;
    assert TakeIn(t, SHORT_FOLLOWS.event.content) == (u, Some(2));
    assert NewestBefore(u, 8, 4) == Some(3);
  }

  /** With a total of 2, a gap of this frame of three packets is missed, or a
      packet that is there is requested. */
  lemma {:induction false} TotalOfTwoMisleads()
    ensures PreviousGap(WITHOUT_LAST, 2, 0) == None && TailGap(WITHOUT_LAST) == Some((2, 2))
    ensures PreviousGap(WITHOUT_MIDDLE, 2, 0) == Some((1, 2)) && TailGap(WITHOUT_MIDDLE) == None
  {
    var sizes := WITHOUT_MIDDLE.sizes;
    assert GapStart(sizes, 1) == 1;
    assert GapStart(sizes, 2) == GapStart(sizes, 1);
    assert GapStart(WITHOUT_LAST.sizes, 2) == 2;
  }

  lemma {:induction false} LongPacketsAreGenuine()
    ensures FromSender(MIDDLE_ARRIVES, SENDER) && FromSender(LAST_ARRIVES, SENDER)
  {
    SenderIsHonest();
    assert SENDER[2] == LONG_FRAME && [7, 6, 5][1..2] == [6] && [7, 6, 5][2..3] == [5];
  }

  lemma {:induction false} ShortPacketIsGenuine()
    ensures FromSender(SHORT_FOLLOWS, SENDER)
  {
    SenderIsHonest();
    assert SENDER[1] == SHORT_FRAME && [9, 8][0..1] == [9];
  }

  lemma {:induction false} AfterTwo(st: State, a: Input, b: Input)
    requires AllWellFormed(st.table) && LegalEvent(a.event, |st.table|) && LegalEvent(b.event, |st.table|)
    ensures LegalRun([a, b], |st.table|)
    ensures AllWellFormed(Step(st, a).0.table) && |Step(st, a).0.table| == |st.table|
    ensures var e := Step(Step(st, a).0, b).0;
            Run(st, [a, b]).0 == e && AllWellFormed(e.table) && |e.table| == |st.table|
  {
    StepKeepsWellFormed(st, a);
    var next := Step(st, a).0;
    StepKeepsWellFormed(next, b);
    assert [a, b][1..] == [b] && [b][1..] == [];
    assert Run(Step(next, b).0, []) == (Step(next, b).0, []);
    assert Run(next, [b]).0 == Step(next, b).0;
  }

  /** The run is legal and leaves `s` as the only frame. */
  predicate Leaves(inputs: seq<Input>, s: Slot) {
    LegalRun(inputs, 4) && AllWellFormed(Lone(s)) && Run(Start(4), inputs).0 == State(Lone(s), true)
  }

  lemma {:induction false} MiddleLeaves()
    ensures Leaves([LONG_ARRIVES, MIDDLE_ARRIVES], WITHOUT_LAST)
  {
    LongWaits();
    assert LegalEvent(MIDDLE_ARRIVES.event, 4);
    AfterTwo(Start(4), LONG_ARRIVES, MIDDLE_ARRIVES);
    MiddleStored();
  }

  lemma {:induction false} LastLeaves()
    ensures Leaves([LONG_ARRIVES, LAST_ARRIVES], WITHOUT_MIDDLE)
  {
    LongWaits();
    assert LegalEvent(LAST_ARRIVES.event, 4);
    AfterTwo(Start(4), LONG_ARRIVES, LAST_ARRIVES);
    LastStored();
  }

  /** After the run, `next` looks at frame `previous` with this total. */
  predicate LooksAfter(inputs: seq<Input>, next: Input, previous: Slot, total: nat) {
    && LegalRun(inputs, 4) && LegalEvent(next.event, 4)
    && var st := Run(Start(4), inputs).0;
       |st.table| == 4 && AllWellFormed(st.table) && LooksAt(st, next) == Some((previous, total))
  }

  lemma {:induction false} ShortLooksAfter(inputs: seq<Input>, s: Slot)
    requires Leaves(inputs, s) && s.timestamp == 6 && s.frameCounter == 2
    ensures LooksAfter(inputs, SHORT_FOLLOWS, s, 2)
    ensures 0 < s.total <= |s.sizes| && Asked(Run(Start(4), inputs).0, SHORT_FOLLOWS) == PreviousGap(s, 2, 0)
  {
    assert LegalEvent(SHORT_FOLLOWS.event, 4);
    ShortLooksBack(s);
  }

  predicate AllFromSender(inputs: seq<Input>, sender: Sender) {
    forall k :: 0 <= k < |inputs| ==> FromSender(inputs[k], sender)
  }

  lemma {:induction false} ThreeFromSender(a: Input, b: Input, c: Input, sender: Sender)
    requires FromSender(a, sender) && FromSender(b, sender) && FromSender(c, sender)
    ensures AllFromSender([a, b, c], sender)
  {
  }

  lemma {:induction false} RunsAreGenuine()
    ensures AllFromSender([LONG_ARRIVES, MIDDLE_ARRIVES, SHORT_FOLLOWS], SENDER)
    ensures AllFromSender([LONG_ARRIVES, LAST_ARRIVES, SHORT_FOLLOWS], SENDER)
  {
    LongIsGenuine();
    LongPacketsAreGenuine();
    ShortPacketIsGenuine();
    ThreeFromSender(LONG_ARRIVES, MIDDLE_ARRIVES, SHORT_FOLLOWS, SENDER);
    ThreeFromSender(LONG_ARRIVES, LAST_ARRIVES, SHORT_FOLLOWS, SENDER);
  }

  /** With an honest sender, a look inside the table can miss the gap at the
      end of the previous frame. */
  lemma {:induction false} GapIsMissed()
    ensures exists sender: Sender, inputs: seq<Input>, next: Input, previous: Slot, total: nat ::
              && AllFromSender(inputs + [next], sender) && LooksAfter(inputs, next, previous, total)
              && total <= |previous.sizes| && Asked(Run(Start(4), inputs).0, next) == None
              && previous.total == 3 && MaximalRun(previous.sizes, 2, 2)
  {
    RunsAreGenuine();
    MiddleLeaves();
    TotalOfTwoMisleads();
    var inputs := [LONG_ARRIVES, MIDDLE_ARRIVES];
    ShortLooksAfter(inputs, WITHOUT_LAST);
    assert inputs + [SHORT_FOLLOWS] == [LONG_ARRIVES, MIDDLE_ARRIVES, SHORT_FOLLOWS];
    assert MaximalRun(WITHOUT_LAST.sizes, 2, 2);
  }

  /** And it can request a packet that has been received. */
  lemma {:induction false} ReceivedIsRequested()
    ensures exists sender: Sender, inputs: seq<Input>, next: Input, previous: Slot, total: nat ::
              && AllFromSender(inputs + [next], sender) && LooksAfter(inputs, next, previous, total)
              && total <= |previous.sizes| && Asked(Run(Start(4), inputs).0, next) == Some((1, 2))
              && 2 < |previous.sizes| && Received(previous, 2)
  {
    RunsAreGenuine();
    LastLeaves();
    TotalOfTwoMisleads();
    var inputs := [LONG_ARRIVES, LAST_ARRIVES];
    ShortLooksAfter(inputs, WITHOUT_MIDDLE);
    assert inputs + [SHORT_FOLLOWS] == [LONG_ARRIVES, LAST_ARRIVES, SHORT_FOLLOWS];
    assert Received(WITHOUT_MIDDLE, 2);
  }
}
