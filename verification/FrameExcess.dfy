/** What NDA lists do to the completeness test (protocol v2): by how much the
    counts of a slot are ahead in every run, and when the test is wrong. */
module FrameExcess {
  import Counting
  import FrameFaithful
  import opened FrameCounts
  import opened FrameRuns
  import opened FrameTable
  import opened Types

  // ---- The excess is what was wasted ----

  /** How many wasted entries each slot has seen since it was made ready. */
  function StepWaste(st: State, input: Input, w: seq<nat>): (r: seq<nat>)
    requires AllWellFormed(st.table) && LegalEvent(input.event, |st.table|) && |w| == |st.table|
    ensures |r| == |w|
  {
    match input.event
    case Check(_, _) => w
    case Datagram(_, Rejected) => w
    case Datagram(_, Data(p, now, _, buffer, _)) =>
      var claim := Claim(st.table, p, now, buffer);
      if FitsFrame(p) && p.packetCounter < p.total && Find(st.table, p.frameCounter, |st.table|).None? && claim.Some?
      then w[claim.value.1 := 0] else w
    case Datagram(_, Unavailable(frameCounter, first, counters)) =>
      var found := Find(st.table, frameCounter, |st.table|);
      if found.Some? && first != 0
      then w[found.value := w[found.value] + Waste(st.table[found.value], counters)] else w
  }

  function RunWaste(st: State, inputs: seq<Input>, w: seq<nat>): (r: seq<nat>)
    requires AllWellFormed(st.table) && LegalRun(inputs, |st.table|) && |w| == |st.table|
    ensures |r| == |w|
    decreases |inputs|
  {
    if inputs == [] then w
    else
      StepKeepsWellFormed(st, inputs[0]);
      RunWaste(Step(st, inputs[0]).0, inputs[1..], StepWaste(st, inputs[0], w))
  }

  predicate SlotExcess(s: Slot, w: nat) {
    Active(s) ==> s.total <= |s.sizes| && Sound(s) && Excess(s) == w % UINT16_RANGE
  }

  predicate ExcessIs(t: Table, w: seq<nat>) {
    |w| == |t| && forall i :: 0 <= i < |t| ==> SlotExcess(t[i], w[i])
  }

  lemma {:induction false} DataExcess(t: Table, p: Packet, now: nat, later: nat, buffer: seq<byte>,
                                      w: seq<nat>, w': seq<nat>)
    requires AllWellFormed(t) && Legal(p) && |buffer| == p.frameLen && 0 < now
    requires ExcessIs(t, w) && FitsFrame(p) && p.packetCounter < p.total && Claim(t, p, now, buffer).Some?
    requires var i := Claim(t, p, now, buffer).value.1;
             w' == if Find(t, p.frameCounter, |t|).None? then w[i := 0] else w
    ensures ExcessIs(Receive(t, p, now, later, buffer).0, w')
  {
    var (u, i) := Claim(t, p, now, buffer).value;
    ClaimKeepsWellFormed(t, p, now, buffer);
    if Find(t, p.frameCounter, |t|).None? {
      InitCounts(t[i], now, p.frameCounter, p.frameLen, p.total, buffer);
      CountedIsExact(u[i]);
    }
    assert ExcessIs(u, w');
    if p.frameLen == u[i].frameSize && p.total == u[i].total && u[i].sizes[p.packetCounter] != NDA {
      StoreCounts(u[i], p.packetCounter, p.position, p.data, later);
    }
  }

  lemma {:induction false} NdaExcess(t: Table, frameCounter: nat, first: nat, counters: seq<nat>,
                                     w: seq<nat>, w': seq<nat>)
    requires AllWellFormed(t) && ExcessIs(t, w) && Find(t, frameCounter, |t|).Some? && first != 0
    requires var i := Find(t, frameCounter, |t|).value;
             w' == w[i := w[i] + Waste(t[i], counters)]
    ensures ExcessIs(ReceiveNda(t, frameCounter, first, counters).0, w')
  {
    var i := Find(t, frameCounter, |t|).value;
    MarkNdaKeepsWellFormed(t[i], counters);
    MarkNdaCounts(t[i], counters);
    AddModulo(w[i], 0, Waste(t[i], counters));
  }

  lemma {:induction false} TakenExcess(st: State, input: Input, w: seq<nat>)
    requires AllWellFormed(st.table) && LegalEvent(input.event, |st.table|) && ExcessIs(st.table, w)
    ensures ExcessIs(Taken(st, input), StepWaste(st, input, w))
  {
    if input.event.Datagram? {
      match input.event.content
      case Rejected =>
      case Data(p, now, later, buffer, _) =>
        if FitsFrame(p) && p.packetCounter < p.total && Claim(st.table, p, now, buffer).Some? {
          DataExcess(st.table, p, now, later, buffer, w, StepWaste(st, input, w));
        }
      case Unavailable(frameCounter, first, counters) =>
        if Find(st.table, frameCounter, |st.table|).Some? && first != 0 {
          NdaExcess(st.table, frameCounter, first, counters, w, StepWaste(st, input, w));
        }
    }
  }

  lemma {:induction false} SameFrameExcess(s: Slot, s': Slot, w: nat)
    requires SameFrame(s, s') && SlotExcess(s, w)
    ensures SlotExcess(s', w)
  {
  }

  lemma {:induction false} RunExcess(st: State, inputs: seq<Input>, w: seq<nat>)
    requires AllWellFormed(st.table) && LegalRun(inputs, |st.table|) && ExcessIs(st.table, w)
    ensures AllWellFormed(Run(st, inputs).0.table) && ExcessIs(Run(st, inputs).0.table, RunWaste(st, inputs, w))
    decreases |inputs|
  {
    if inputs != [] {
      StepKeepsWellFormed(st, inputs[0]);
      TakenExcess(st, inputs[0], w);
      StepSameFrames(st, inputs[0]);
      var next, w' := Step(st, inputs[0]).0, StepWaste(st, inputs[0], w);
      forall i | 0 <= i < |next.table| ensures SlotExcess(next.table[i], w'[i]) {
        SameFrameExcess(Taken(st, inputs[0])[i], next.table[i], w'[i]);
      }
      RunExcess(next, inputs[1..], w');
    }
  }

  /** In every run, the counts of a slot in use are ahead by exactly the wasted
      NDA entries since it was made ready, in 16 bits: so its frame tests
      complete exactly when that many packets are missing. */
  lemma {:induction false} ExcessIsWaste(slots: nat, inputs: seq<Input>)
    requires LegalRun(inputs, slots)
    ensures var t := Run(Start(slots), inputs).0.table;
            var w := RunWaste(Start(slots), inputs, seq(slots, _ => 0));
            && |t| == slots
            && forall i :: 0 <= i < slots && Active(t[i]) ==>
                 && t[i].total <= |t[i].sizes| && Excess(t[i]) == w[i] % UINT16_RANGE
                 && (Complete(t[i]) <==> Missing(t[i]) == w[i] % UINT16_RANGE)
  {
    var w := seq(slots, _ => 0);
    RunExcess(Start(slots), inputs, w);
    var t, w' := Run(Start(slots), inputs).0.table, RunWaste(Start(slots), inputs, w);
    forall i | 0 <= i < slots && Active(t[i]) ensures Complete(t[i]) <==> Missing(t[i]) == w'[i] % UINT16_RANGE {
      assert SlotExcess(t[i], w'[i]);
      CompleteIffMissingIsExcess(t[i]);
    }
  }

  // ---- The test is right exactly after clean lists ----

  /** A packet of the frame in a slot. */
  datatype Arrival = Arrival(packetCounter: nat, position: nat, data: seq<byte>, now: nat)

  predicate OfFrame(arrivals: seq<Arrival>, total: nat) {
    forall k :: 0 <= k < |arrivals| ==> arrivals[k].packetCounter < total && 0 < |arrivals[k].data| < NDA
  }

  predicate Fits(s: Slot, arrivals: seq<Arrival>) {
    s.total <= |s.sizes| == |s.starts| && OfFrame(arrivals, s.total)
  }

  function TakeOne(s: Slot, a: Arrival): Slot
    requires a.packetCounter < |s.sizes| == |s.starts|
  {
    if s.sizes[a.packetCounter] == NDA then s else Store(s, a.packetCounter, a.position, a.data, a.now)
  }

  function TakeAll(s: Slot, arrivals: seq<Arrival>): (r: Slot)
    requires Fits(s, arrivals)
    ensures r.total == s.total && |r.sizes| == |s.sizes| == |r.starts|
    decreases |arrivals|
  {
    if arrivals == [] then s else TakeAll(TakeOne(s, arrivals[0]), arrivals[1..])
  }

  /** This is what becomes of the slot of a packet that agrees with its frame. */
  lemma {:induction false} PlaceTakesOne(u: Table, i: nat, p: Packet, later: nat)
    requires i < |u| && WellFormed(u[i]) && Active(u[i]) && p.packetCounter < p.total
    requires p.frameLen == u[i].frameSize && p.total == u[i].total
    ensures Place(u, i, p, later).0 == u[i := TakeOne(u[i], Arrival(p.packetCounter, p.position, p.data, later))]
  {
  }

  predicate NothingMissing(s: Slot)
    requires s.total <= |s.sizes|
  {
    forall k :: 0 <= k < s.total ==> s.sizes[k] != 0
  }

  /** The completeness test tells whether nothing is missing. */
  predicate TestIsRight(s: Slot)
    requires s.total <= |s.sizes|
  {
    Complete(s) <==> NothingMissing(s)
  }

  /** It does so now and after any further packets of the frame. */
  ghost predicate TestStaysRight(s: Slot)
    requires s.total <= |s.sizes| == |s.starts|
  {
    forall arrivals: seq<Arrival> :: OfFrame(arrivals, s.total) ==> TestIsRight(TakeAll(s, arrivals))
  }

  lemma {:induction false} TakeAllCounts(s: Slot, arrivals: seq<Arrival>)
    requires WellFormed(s) && Active(s) && Sound(s) && OfFrame(arrivals, s.total)
    ensures var r := TakeAll(s, arrivals);
            && WellFormed(r) && Active(r) && Sound(r) && Excess(r) == Excess(s)
            && (Counted(s) ==> Counted(r))
    decreases |arrivals|
  {
    if arrivals != [] {
      var a := arrivals[0];
      if s.sizes[a.packetCounter] != NDA {
        StoreCounts(s, a.packetCounter, a.position, a.data, a.now);
      }
      TakeAllCounts(TakeOne(s, a), arrivals[1..]);
    }
  }

  lemma {:induction false} NothingMissingIff(s: Slot)
    requires s.total <= |s.sizes|
    ensures NothingMissing(s) <==> Missing(s) == 0
  {
    CountNone(s.sizes, s.total, IsMissing);
    assert forall k :: 0 <= k < s.total ==> (IsMissing(s.sizes[k]) <==> s.sizes[k] == 0);
  }

  /** Packets after which exactly `target` are missing. */
  lemma {:induction false} MissingDownTo(s: Slot, target: nat) returns (arrivals: seq<Arrival>)
    requires WellFormed(s) && Active(s) && Sound(s) && target <= Missing(s)
    ensures OfFrame(arrivals, s.total) && Missing(TakeAll(s, arrivals)) == target
    decreases Missing(s)
  {
    if Missing(s) == target {
      arrivals := [];
    } else {
      var k := Counting.Position(s.sizes[..s.total], IsMissing);
      var a := Arrival(k, 0, [1], 0);
      StoreCounts(s, k, 0, [1], 0);
      CountUpdate(s.sizes, s.total, IsMissing, k, 1);
      var rest := MissingDownTo(TakeOne(s, a), target);
      arrivals := [a] + rest;
      assert arrivals[1..] == rest;
    }
  }

  /** From counts that mean what they should, "got + nda == total" is right
      after an NDA list, and stays so whatever packets of the frame follow, if
      and only if the list names only packets still missing, each once. */
  lemma {:induction false} TestStaysRightIffClean(s: Slot, counters: seq<nat>)
    requires WellFormed(s) && Active(s) && Counted(s) && |counters| < UINT16_RANGE
    ensures var r := MarkNda(s, counters);
            r.total <= |r.sizes| == |r.starts| && (TestStaysRight(r) <==> CleanList(s, counters))
  {
    var r := MarkNda(s, counters);
    MarkNdaKeepsWellFormed(s, counters);
    CountedIsExact(s);
    MarkNdaCounts(s, counters);
    CountedIffClean(s, counters);
    if CleanList(s, counters) {
      forall arrivals: seq<Arrival> | OfFrame(arrivals, r.total) ensures TestIsRight(TakeAll(r, arrivals)) {
        TakeAllCounts(r, arrivals);
        CountedIsExact(TakeAll(r, arrivals));
      }
    } else {
      LookedInRange(s, counters);
      WastedNoneIffClean(s.sizes, Looked(s, counters));
      WrongIfAhead(r);
    }
  }

  lemma {:induction false} WrongIfAhead(s: Slot)
    requires WellFormed(s) && Active(s) && Sound(s) && Excess(s) > 0
    ensures !TestStaysRight(s)
  {
    var target := if Excess(s) <= Missing(s) then Excess(s) else 0;
    var arrivals := MissingDownTo(s, target);
    var r := TakeAll(s, arrivals);
    TakeAllCounts(s, arrivals);
    CompleteIffMissingIsExcess(r);
    NothingMissingIff(r);
  }

  // ---- A frame handed on with a packet missing ----

  const DIRECT: Config := Config(0, 10.0, 10, 3.0)

  /** Packet 0 of a frame of three packets, then an NDA list that names packet 1 twice. */
  const FIRST_ARRIVES: Input :=
    Input(DIRECT, Datagram(false, Data(Packet(1, 0, 3, 3, 0, [7], false), 5, 5, [0, 0, 0], NOTHING)))

  const TWICE_LISTED: Input := Input(DIRECT, Datagram(false, Unavailable(1, 1, [1, 1])))

  const FRAME: FrameFaithful.SentFrame := FrameFaithful.SentFrame([7, 6, 5], [0, 1, 2, 3])

  const SENDER: FrameFaithful.Sender := map[1 := FRAME]

  const WAITING: Slot := Slot(5, 1, 3, [7, 0, 0], 1, 0, 3, [0, 0, 0], [1, 0, 0], 5, 5, 0)

  const LACKING: Slot := Slot(5, 1, 3, [7, 0, 0], 1, 2, 3, [0, 0, 0], [1, NDA, 0], 5, 5, 0)

  lemma {:induction false} FirstWaits()
    ensures LegalEvent(FIRST_ARRIVES.event, 4)
    ensures Step(Start(4), FIRST_ARRIVES) == (State([EMPTY, EMPTY, EMPTY, WAITING], false), [])
  {
    var t := Start(4).table;
    var p := FIRST_ARRIVES.event.content.p;
    assert t == [EMPTY, EMPTY, EMPTY, EMPTY];
    FindMeans(t, 1, 4);
    var made := Init(EMPTY, 5, 1, 3, 3, [0, 0, 0]).value;
    assert made.sizes == [0, 0, 0] && made.starts == [0, 0, 0];
    assert t[3 := made] == [EMPTY, EMPTY, EMPTY, made];
    assert Claim(t, p, 5, [0, 0, 0]) == Some(([EMPTY, EMPTY, EMPTY, made], 3));
    assert Write([0, 0, 0], 0, [7]) == [7, 0, 0];
    assert Store(made, 0, 0, [7], 5) == WAITING;
    var u := [EMPTY, EMPTY, EMPTY, WAITING];
    assert [EMPTY, EMPTY, EMPTY, made][3 := WAITING] == u;
    assert TakeIn(t, FIRST_ARRIVES.event.content) == (u, Some(3));
  }

  lemma {:induction false} MarkedTwice()
    ensures MarkNda(WAITING, [1, 1]) == LACKING
  {
    var once := WAITING.(nda := 1, sizes := WAITING.sizes[1 := NDA]);
    assert [1, 1][1..] == [1] && [1][1..] == [];
    assert once.sizes == [1, NDA, 0] && once.sizes[1 := NDA] == [1, NDA, 0];
    assert MarkNda(LACKING, []) == LACKING;
    assert MarkNda(once, [1]) == LACKING;
  }

  lemma {:induction false} ListHandsOn()
    requires AllWellFormed([EMPTY, EMPTY, EMPTY, WAITING]) && LegalEvent(TWICE_LISTED.event, 4)
    ensures Step(State([EMPTY, EMPTY, EMPTY, WAITING], false), TWICE_LISTED).1 == [LACKING]
  {
    var t := [EMPTY, EMPTY, EMPTY, WAITING];
    MarkedTwice();
    FindMeans(t, 1, 4);
    assert Find(t, 1, 4) == Some(3);
    assert TakeIn(t, TWICE_LISTED.event.content) == (t[3 := LACKING], Some(3));
    assert Complete(LACKING);
  }

  lemma {:induction false} FrameTiles()
    ensures FrameFaithful.Tiles(FRAME)
  {
  }

  lemma {:induction false} FirstIsGenuine()
    ensures FrameFaithful.FromSender(FIRST_ARRIVES, SENDER)
  {
    FrameTiles();
    assert SENDER.Keys == {1};
    assert SENDER[1] == FRAME && [7, 6, 5][0..1] == [7];
  }

  lemma {:induction false} RunOfTwo(st: State, a: Input, b: Input)
    requires AllWellFormed(st.table) && LegalEvent(a.event, |st.table|) && LegalEvent(b.event, |st.table|)
    ensures LegalRun([a, b], |st.table|)
    ensures AllWellFormed(Step(st, a).0.table) && |Step(st, a).0.table| == |st.table|
    ensures Run(st, [a, b]).1 == Step(st, a).1 + Step(Step(st, a).0, b).1
  {
    StepKeepsWellFormed(st, a);
    var next := Step(st, a).0;
    StepKeepsWellFormed(next, b);
    assert [a, b][1..] == [b] && [b][1..] == [];
    assert Run(Step(next, b).0, []) == (Step(next, b).0, []);
    assert Run(next, [b]).1 == Step(next, b).1;
  }

  lemma {:induction false} BothHandOn()
    ensures LegalRun([FIRST_ARRIVES, TWICE_LISTED], 4)
    ensures Run(Start(4), [FIRST_ARRIVES, TWICE_LISTED]).1 == [LACKING]
  {
    FirstWaits();
    assert LegalEvent(TWICE_LISTED.event, 4);
    RunOfTwo(Start(4), FIRST_ARRIVES, TWICE_LISTED);
    ListHandsOn();
  }

  /** An NDA list that names a missing packet twice is enough to hand on a
      frame with another packet missing. */
  lemma {:induction false} TwiceListedHandsOn()
    ensures exists sender: FrameFaithful.Sender, inputs: seq<Input> ::
              && |inputs| == 2 && LegalRun(inputs, 4)
              && FrameFaithful.FromSender(inputs[0], sender) && FrameFaithful.FromSender(inputs[1], sender)
              && var out := Run(Start(4), inputs).1;
                 |out| == 1 && Active(out[0]) && out[0].total <= |out[0].sizes| && !NothingMissing(out[0])
  {
    FirstIsGenuine();
    BothHandOn();
    var inputs := [FIRST_ARRIVES, TWICE_LISTED];
    assert LACKING.sizes[2] == 0;
    assert FrameFaithful.FromSender(inputs[0], SENDER) && FrameFaithful.FromSender(inputs[1], SENDER);
  }
}
