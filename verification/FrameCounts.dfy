/** When a frame counts as complete (protocol v2): what the two packet counts
    of a slot mean in every reachable state, and what a listed packet that is
    not missing does to them. */
module FrameCounts {
  import Counting
  import FrameFaithful
  import opened FrameRuns
  import opened FrameTable
  import opened Types

  predicate IsMissing(size: nat) { size == 0 }

  predicate IsNda(size: nat) { size == NDA }

  predicate IsReceived(size: nat) { size != 0 && size != NDA }

  /** How many of the first n sizes satisfy p. */
  function Count(sizes: seq<nat>, n: nat, p: nat -> bool): nat
    requires n <= |sizes|
  {
    Counting.Times(sizes[..n], p)
  }

  lemma {:induction false} CountUpdate(sizes: seq<nat>, n: nat, p: nat -> bool, k: nat, size: nat)
    requires k < n <= |sizes|
    ensures Count(sizes[k := size], n, p) ==
            Count(sizes, n, p) - (if p(sizes[k]) then 1 else 0) + if p(size) then 1 else 0
  {
    assert sizes[k := size][..n] == sizes[..n][k := size];
    Counting.TimesUpdate(sizes[..n], k, size, p);
  }

  lemma {:induction false} CountNone(sizes: seq<nat>, n: nat, p: nat -> bool)
    requires n <= |sizes|
    ensures Count(sizes, n, p) == 0 <==> forall i :: 0 <= i < n ==> !p(sizes[i])
  {
    Counting.TimesNone(sizes[..n], p);
    assert forall i :: 0 <= i < n ==> sizes[..n][i] == sizes[i];
  }

  lemma {:induction false} CountsPartition(sizes: seq<nat>, n: nat)
    requires n <= |sizes|
    ensures Count(sizes, n, IsMissing) + Count(sizes, n, IsNda) + Count(sizes, n, IsReceived) == n
  {
    if n > 0 {
      assert sizes[..n][..n - 1] == sizes[..n - 1];
      CountsPartition(sizes, n - 1);
    }
  }

  function Missing(s: Slot): nat
    requires s.total <= |s.sizes|
  {
    Count(s.sizes, s.total, IsMissing)
  }

  /** How far the two counts together run ahead of the packets accounted for. */
  function Excess(s: Slot): (r: nat)
    requires s.total <= |s.sizes|
    ensures r < UINT16_RANGE
  {
    (s.got + s.nda - (s.total - Missing(s))) % UINT16_RANGE
  }

  /** The counts are the numbers of packets received and not available. */
  predicate Counted(s: Slot)
    requires s.total <= |s.sizes|
  {
    s.got == Count(s.sizes, s.total, IsReceived) && s.nda == Count(s.sizes, s.total, IsNda)
  }

  /** No packet is counted as received that is still missing. */
  predicate Sound(s: Slot)
    requires s.total <= |s.sizes|
  {
    s.got <= s.total - Missing(s)
  }

  /** The completeness test is exact about the excess. */
  lemma {:induction false} CompleteIffMissingIsExcess(s: Slot)
    requires WellFormed(s) && Active(s) && Sound(s)
    ensures Complete(s) <==> Missing(s) == Excess(s)
  {
  }

  lemma {:induction false} CountedIsExact(s: Slot)
    requires WellFormed(s) && Active(s) && Counted(s)
    ensures Sound(s) && Excess(s) == 0
    ensures Complete(s) <==> forall k :: 0 <= k < s.total ==> s.sizes[k] != 0
  {
    CountsPartition(s.sizes, s.total);
    CountNone(s.sizes, s.total, IsMissing);
    assert Complete(s) <==> Missing(s) == 0;
    assert forall k :: 0 <= k < s.total ==> (IsMissing(s.sizes[k]) <==> s.sizes[k] == 0);
  }

  // ---- Each operation ----

  lemma {:induction false} InitCounts(s: Slot, now: nat, frameCounter: nat, frameLen: nat, total: nat,
                                      buffer: seq<byte>)
    requires 0 < frameLen && 0 < total
    ensures var r := Init(s, now, frameCounter, frameLen, total, buffer).value;
            r.total <= |r.sizes| && Counted(r) && Sound(r)
  {
    var r := Init(s, now, frameCounter, frameLen, total, buffer).value;
    CountNone(r.sizes, total, IsReceived);
    CountNone(r.sizes, total, IsNda);
    CountsPartition(r.sizes, total);
  }

  /** A packet that repeats one already received changes no count. */
  lemma {:induction false} StoreCounts(s: Slot, k: nat, position: nat, data: seq<byte>, now: nat)
    requires WellFormed(s) && Active(s) && k < s.total
    requires 0 < |data| < NDA && s.sizes[k] != NDA && Sound(s)
    ensures var r := Store(s, k, position, data, now);
            Sound(r) && Excess(r) == Excess(s) && (Counted(s) ==> Counted(r))
  {
    CountsPartition(s.sizes, s.total);
    CountUpdate(s.sizes, s.total, IsMissing, k, |data|);
    CountUpdate(s.sizes, s.total, IsReceived, k, |data|);
    CountUpdate(s.sizes, s.total, IsNda, k, |data|);
    if s.sizes[k] == 0 {
      CountMember(s.sizes, s.total, IsMissing, k);
    }
    var r := Store(s, k, position, data, now);
    assert r.got == if s.sizes[k] != 0 then s.got else s.got + 1;
  }

  lemma {:induction false} CountMember(sizes: seq<nat>, n: nat, p: nat -> bool, k: nat)
    requires k < n <= |sizes| && p(sizes[k])
    ensures Count(sizes, n, p) > 0
  {
    CountNone(sizes, n, p);
  }

  /** The listed packets that are looked at: those before the first counter
      that is out of range. */
  function Looked(s: Slot, counters: seq<nat>): seq<nat>
    decreases |counters|
  {
    if counters == [] || counters[0] >= s.total || counters[0] >= |s.sizes| then []
    else [counters[0]] + Looked(s, counters[1..])
  }

  /** How many of the packets looked at were not missing (any more). */
  function Wasted(sizes: seq<nat>, looked: seq<nat>): nat
    requires forall i :: 0 <= i < |looked| ==> looked[i] < |sizes|
    decreases |looked|
  {
    if looked == [] then 0
    else (if sizes[looked[0]] != 0 then 1 else 0) + Wasted(sizes[looked[0] := NDA], looked[1..])
  }

  lemma {:induction false} LookedInRange(s: Slot, counters: seq<nat>)
    ensures forall i :: 0 <= i < |Looked(s, counters)| ==>
            Looked(s, counters)[i] < s.total && Looked(s, counters)[i] < |s.sizes|
    ensures |Looked(s, counters)| <= |counters|
    decreases |counters|
  {
    if !(counters == [] || counters[0] >= s.total || counters[0] >= |s.sizes|) {
      LookedInRange(s, counters[1..]);
    }
  }

  /** The list names only packets still missing, each once. */
  predicate Clean(sizes: seq<nat>, looked: seq<nat>)
    requires forall i :: 0 <= i < |looked| ==> looked[i] < |sizes|
  {
    && (forall i :: 0 <= i < |looked| ==> sizes[looked[i]] == 0)
    && (forall i, j :: 0 <= i < j < |looked| ==> looked[i] != looked[j])
  }

  lemma {:induction false} WastedNoneIffClean(sizes: seq<nat>, looked: seq<nat>)
    requires forall i :: 0 <= i < |looked| ==> looked[i] < |sizes|
    ensures Wasted(sizes, looked) <= |looked|
    ensures Wasted(sizes, looked) == 0 <==> Clean(sizes, looked)
    decreases |looked|
  {
    if looked != [] {
      var marked, rest := sizes[looked[0] := NDA], looked[1..];
      WastedNoneIffClean(marked, rest);
      if Clean(sizes, looked) {
        forall i | 0 <= i < |rest| ensures marked[rest[i]] == 0 {
          assert rest[i] == looked[i + 1] != looked[0];
        }
      }
    }
  }

  function Waste(s: Slot, counters: seq<nat>): nat {
    LookedInRange(s, counters);
    Wasted(s.sizes, Looked(s, counters))
  }

  predicate CleanList(s: Slot, counters: seq<nat>) {
    LookedInRange(s, counters);
    Clean(s.sizes, Looked(s, counters))
  }

  /** Marking one packet that is in range. */
  function MarkOne(s: Slot, k: nat): Slot
    requires k < |s.sizes|
  {
    s.(nda := (s.nda + 1) % UINT16_RANGE, sizes := s.sizes[k := NDA])
  }

  lemma {:induction false} MarkOneCounts(s: Slot, k: nat)
    requires WellFormed(s) && Active(s) && k < s.total && Sound(s)
    ensures var r := MarkOne(s, k);
            && Sound(r) && (Counted(s) && s.sizes[k] == 0 ==> Counted(r))
            && Excess(r) == (Excess(s) + if s.sizes[k] != 0 then 1 else 0) % UINT16_RANGE
  {
    CountsPartition(s.sizes, s.total);
    CountUpdate(s.sizes, s.total, IsMissing, k, NDA);
    CountUpdate(s.sizes, s.total, IsReceived, k, NDA);
    CountUpdate(s.sizes, s.total, IsNda, k, NDA);
    if s.sizes[k] == 0 {
      CountMember(s.sizes, s.total, IsMissing, k);
    }
    ExcessStep(s.got, s.nda, s.total - Missing(s), if s.sizes[k] != 0 then 1 else 0);
  }

  lemma {:induction false} ExcessStep(got: nat, nda: nat, present: nat, d: nat)
    requires d <= 1
    ensures (got + (nda + 1) % UINT16_RANGE - (present + 1 - d)) % UINT16_RANGE
         == ((got + nda - present) % UINT16_RANGE + d) % UINT16_RANGE
  {
    assert (nda + 1) % UINT16_RANGE == nda + 1 - UINT16_RANGE * ((nda + 1) / UINT16_RANGE);
  }

  /** A list of unavailable packets moves the excess by exactly the number of
      wasted entries. */
  lemma {:induction false} MarkNdaCounts(s: Slot, counters: seq<nat>)
    requires WellFormed(s) && Active(s) && Sound(s)
    ensures var r := MarkNda(s, counters);
            r.total == s.total <= |r.sizes| && Sound(r)
            && Excess(r) == (Excess(s) + Waste(s, counters)) % UINT16_RANGE
            && (Counted(s) && Waste(s, counters) == 0 ==> Counted(r))
    decreases |counters|
  {
    LookedInRange(s, counters);
    if !(counters == [] || counters[0] >= s.total || counters[0] >= |s.sizes|) {
      var k, rest := counters[0], counters[1..];
      var r := MarkOne(s, k);
      MarkOneCounts(s, k);
      MarkNdaCounts(r, rest);
      SameLooked(s, r, rest);
      assert Looked(s, counters)[1..] == Looked(r, rest);
      var w := Wasted(r.sizes, Looked(r, rest));
      assert Waste(s, counters) == (if s.sizes[k] != 0 then 1 else 0) + w;
      AddModulo(Excess(s), if s.sizes[k] != 0 then 1 else 0, w);
    }
  }

  lemma {:induction false} AddModulo(a: nat, b: nat, c: nat)
    ensures ((a + b) % UINT16_RANGE + c) % UINT16_RANGE == (a + (b + c)) % UINT16_RANGE
  {
  }

  lemma {:induction false} SameLooked(s: Slot, r: Slot, counters: seq<nat>)
    requires s.total == r.total && |s.sizes| == |r.sizes|
    ensures Looked(s, counters) == Looked(r, counters)
    decreases |counters|
  {
    if !(counters == [] || counters[0] >= s.total || counters[0] >= |s.sizes|) {
      SameLooked(s, r, counters[1..]);
    }
  }

  /** Exactly the clean lists leave the counts meaningful. */
  lemma {:induction false} CountedIffClean(s: Slot, counters: seq<nat>)
    requires WellFormed(s) && Active(s) && Counted(s) && |counters| < UINT16_RANGE
    ensures var r := MarkNda(s, counters);
            r.total <= |r.sizes| && (Counted(r) <==> CleanList(s, counters))
  {
    CountedIsExact(s);
    LookedInRange(s, counters);
    MarkNdaCounts(s, counters);
    WastedNoneIffClean(s.sizes, Looked(s, counters));
    var r := MarkNda(s, counters);
    if Counted(r) {
      CountsPartition(r.sizes, r.total);
      assert Excess(r) == 0;
      assert Wasted(s.sizes, Looked(s, counters)) < UINT16_RANGE;
    }
  }

  // ---- Whole runs ----

  /** No two slots are in use for the same frame. */
  predicate Distinct(t: Table) {
    forall i, j :: 0 <= i < j < |t| && Active(t[i]) && Active(t[j]) ==> t[i].frameCounter != t[j].frameCounter
  }

  predicate Tallied(s: Slot, clean: bool) {
    Active(s) ==> s.total <= |s.sizes| && Sound(s) && (clean ==> Counted(s))
  }

  predicate AllTallied(t: Table, clean: bool) {
    forall i :: 0 <= i < |t| ==> Tallied(t[i], clean)
  }

  /** An NDA that reaches a slot lists only packets still missing, each once. */
  predicate CleanInput(t: Table, input: Input) {
    input.event.Datagram? && input.event.content.Unavailable? ==>
      var c := input.event.content;
      var found := Find(t, c.frameCounter, |t|);
      found.Some? && c.first != 0 ==> CleanList(t[found.value], c.counters)
  }

  lemma {:induction false} ClaimTallied(t: Table, p: Packet, now: nat, buffer: seq<byte>, clean: bool)
    requires AllTallied(t, clean) && Distinct(t)
    ensures var claim := Claim(t, p, now, buffer);
            claim.Some? ==> AllTallied(claim.value.0, clean) && Distinct(claim.value.0)
  {
    FindMeans(t, p.frameCounter, |t|);
    var claim := Claim(t, p, now, buffer);
    if claim.Some? && Find(t, p.frameCounter, |t|).None? {
      InitCounts(t[claim.value.1], now, p.frameCounter, p.frameLen, p.total, buffer);
    }
  }

  lemma {:induction false} ReceiveTallied(t: Table, p: Packet, now: nat, later: nat, buffer: seq<byte>, clean: bool)
    requires AllWellFormed(t) && Legal(p) && |buffer| == p.frameLen && 0 < now
    requires AllTallied(t, clean) && Distinct(t)
    ensures var u := Receive(t, p, now, later, buffer).0;
            AllTallied(u, clean) && Distinct(u)
  {
    var claim := Claim(t, p, now, buffer);
    if claim.Some? {
      ClaimTallied(t, p, now, buffer, clean);
      ClaimKeepsWellFormed(t, p, now, buffer);
      var (u, i) := claim.value;
      if p.frameLen == u[i].frameSize && p.packetCounter < p.total == u[i].total && u[i].sizes[p.packetCounter] != NDA {
        StoreCounts(u[i], p.packetCounter, p.position, p.data, later);
      }
    }
  }

  lemma {:induction false} TakeInTallied(t: Table, resendable: bool, c: Content, cfg: Config, clean: bool)
    requires AllWellFormed(t) && LegalContent(c) && AllTallied(t, clean) && Distinct(t)
    requires clean ==> CleanInput(t, Input(cfg, Datagram(resendable, c)))
    ensures var u := TakeIn(t, c).0;
            AllTallied(u, clean) && Distinct(u)
  {
    match c
    case Rejected =>
    case Data(p, now, later, buffer, _) => ReceiveTallied(t, p, now, later, buffer, clean);
    case Unavailable(frameCounter, first, counters) =>
      var found := Find(t, frameCounter, |t|);
      if found.Some? && first != 0 {
        var s := t[found.value];
        MarkNdaKeepsWellFormed(s, counters);
        MarkNdaCounts(s, counters);
        LookedInRange(s, counters);
        WastedNoneIffClean(s.sizes, Looked(s, counters));
      }
  }

  predicate CleanRun(st: State, inputs: seq<Input>)
    requires AllWellFormed(st.table) && LegalRun(inputs, |st.table|)
    decreases |inputs|
  {
    if inputs == [] then true
    else
      StepKeepsWellFormed(st, inputs[0]);
      CleanInput(st.table, inputs[0]) && CleanRun(Step(st, inputs[0]).0, inputs[1..])
  }

  /** Frames handed on, with counts as for the slots of a table. */
  predicate DeliveredTallied(out: seq<Slot>, clean: bool) {
    forall k :: 0 <= k < |out| ==> Active(out[k]) && Tallied(out[k], clean)
  }

  lemma {:induction false} StepTallied(st: State, input: Input, clean: bool)
    requires AllWellFormed(st.table) && LegalEvent(input.event, |st.table|)
    requires AllTallied(st.table, clean) && Distinct(st.table) && (clean ==> CleanInput(st.table, input))
    ensures var (next, out) := Step(st, input);
            AllTallied(next.table, clean) && Distinct(next.table) && DeliveredTallied(out, clean)
  {
    if input.event.Datagram? {
      TakeInTallied(st.table, input.event.resendable, input.event.content, input.cfg, clean);
    }
    StepSameFrames(st, input);
    var t := Taken(st, input);
    var out := Step(st, input).1;
    forall k | 0 <= k < |out| ensures Active(out[k]) && Tallied(out[k], clean) {
      assert Holds(t, out[k]);
      var m :| 0 <= m < |t| && SameFrame(t[m], out[k]);
      assert Tallied(t[m], clean);
    }
  }

  lemma {:induction false} RunTallied(st: State, inputs: seq<Input>, clean: bool)
    requires AllWellFormed(st.table) && LegalRun(inputs, |st.table|)
    requires AllTallied(st.table, clean) && Distinct(st.table) && (clean ==> CleanRun(st, inputs))
    ensures var (end, out) := Run(st, inputs);
            && AllWellFormed(end.table) && |end.table| == |st.table|
            && AllTallied(end.table, clean) && Distinct(end.table) && DeliveredTallied(out, clean)
    decreases |inputs|
  {
    if inputs != [] {
      StepKeepsWellFormed(st, inputs[0]);
      StepTallied(st, inputs[0], clean);
      RunTallied(Step(st, inputs[0]).0, inputs[1..], clean);
    }
  }

  /** In every reachable state, whatever arrived: slots in use have distinct
      frame counters, and a frame tests complete exactly when as many packets
      are missing as its counts are in excess. */
  lemma {:induction false} ReachableCounts(slots: nat, inputs: seq<Input>)
    requires LegalRun(inputs, slots)
    ensures var t := Run(Start(slots), inputs).0.table;
            && Distinct(t)
            && forall i :: 0 <= i < |t| && Active(t[i]) ==>
                 t[i].total <= |t[i].sizes| && (Complete(t[i]) <==> Missing(t[i]) == Excess(t[i]))
  {
    RunTallied(Start(slots), inputs, false);
    var t := Run(Start(slots), inputs).0.table;
    forall i | 0 <= i < |t| && Active(t[i]) ensures Complete(t[i]) <==> Missing(t[i]) == Excess(t[i]) {
      assert Tallied(t[i], false);
      CompleteIffMissingIsExcess(t[i]);
    }
  }

  /** If every NDA lists only packets still missing, each once, then in every
      reachable state the counts are the numbers of received and unavailable
      packets, and a frame tests complete exactly when no packet is missing. */
  lemma {:induction false} CleanRunsAreExact(slots: nat, inputs: seq<Input>)
    requires LegalRun(inputs, slots) && CleanRun(Start(slots), inputs)
    ensures var t := Run(Start(slots), inputs).0.table;
            forall i :: 0 <= i < |t| && Active(t[i]) ==>
              && t[i].total <= |t[i].sizes| && Counted(t[i])
              && (Complete(t[i]) <==> forall k :: 0 <= k < t[i].total ==> t[i].sizes[k] != 0)
  {
    RunTallied(Start(slots), inputs, true);
    var t := Run(Start(slots), inputs).0.table;
    forall i | 0 <= i < |t| && Active(t[i])
      ensures Counted(t[i]) && (Complete(t[i]) <==> forall k :: 0 <= k < t[i].total ==> t[i].sizes[k] != 0)
    {
      assert Tallied(t[i], true);
      CountedIsExact(t[i]);
    }
  }

  /** In a clean run of datagrams from the sender, every frame handed on that
      tests complete with no packet unavailable is the frame that was sent. */
  lemma {:induction false} CompleteFramesAreExact(slots: nat, inputs: seq<Input>, sender: FrameFaithful.Sender, s: Slot)
    requires LegalRun(inputs, slots) && CleanRun(Start(slots), inputs)
    requires forall k :: 0 <= k < |inputs| ==> FrameFaithful.FromSender(inputs[k], sender)
    requires s in Run(Start(slots), inputs).1 && Complete(s) && s.nda == 0
    ensures s.frameCounter in sender && s.frameSize <= |s.frame|
    ensures s.frame[..s.frameSize] == sender[s.frameCounter].bytes
  {
    RunTallied(Start(slots), inputs, true);
    assert Active(s) && Counted(s);
    CountNone(s.sizes, s.total, IsNda);
    CountsPartition(s.sizes, s.total);
    CountNone(s.sizes, s.total, IsMissing);
    forall k | 0 <= k < s.total ensures FrameFaithful.Received(s, k) {
      assert !IsNda(s.sizes[k]) && !IsMissing(s.sizes[k]);
    }
    FrameFaithful.WholeFramesAreExact(slots, inputs, sender, s);
  }

  // ---- Exactly when a frame is handed on ----

  /** Complete frames are handed on by the datagram that completes them: in
      mode 0, in mode 1, or when the sender does not resend. */
  predicate HandsOn(input: Input) {
    input.event.Datagram? ==> input.cfg.mode <= 1 || !input.event.resendable
  }

  predicate NoneComplete(t: Table) {
    forall i :: 0 <= i < |t| && Active(t[i]) ==> !Complete(t[i])
  }

  /** Only the slot that a datagram went into can have become complete. */
  lemma {:induction false} TakeInNoneComplete(t: Table, c: Content)
    requires AllWellFormed(t) && LegalContent(c) && NoneComplete(t)
    ensures var (u, i) := TakeIn(t, c);
            forall k :: 0 <= k < |u| && Active(u[k]) && i != Some(k) ==> !Complete(u[k])
  {
    if c.Data? {
      ClaimKeepsWellFormed(t, c.p, c.now, c.buffer);
    }
  }

  lemma {:induction false} StepNoneComplete(st: State, input: Input)
    requires AllWellFormed(st.table) && LegalEvent(input.event, |st.table|)
    requires NoneComplete(st.table) && HandsOn(input)
    ensures NoneComplete(Step(st, input).0.table)
  {
    StepSameFrames(st, input);
    if input.event.Datagram? {
      var c := input.event.content;
      TakeInNoneComplete(st.table, c);
      TakeInKeepsWellFormed(st.table, c);
      var (u, i) := TakeIn(st.table, c);
      if i.Some? && Complete(u[i.value]) {
        DrainMeans(u, i.value);
      }
    }
  }

  lemma {:induction false} RunNoneComplete(st: State, inputs: seq<Input>)
    requires AllWellFormed(st.table) && LegalRun(inputs, |st.table|)
    requires NoneComplete(st.table) && forall k :: 0 <= k < |inputs| ==> HandsOn(inputs[k])
    ensures NoneComplete(Run(st, inputs).0.table)
    decreases |inputs|
  {
    if inputs != [] {
      StepKeepsWellFormed(st, inputs[0]);
      StepNoneComplete(st, inputs[0]);
      RunNoneComplete(Step(st, inputs[0]).0, inputs[1..]);
    }
  }

  predicate MissesOne(s: Slot)
    requires s.total <= |s.sizes|
  {
    exists k :: 0 <= k < s.total && s.sizes[k] == 0
  }

  /** A datagram taken into a slot makes that frame go out if and only if none
      of its packets is missing any more. If one is, nothing goes out. */
  lemma {:induction false} StepGoesOutIff(st: State, input: Input)
    requires AllWellFormed(st.table) && LegalEvent(input.event, |st.table|)
    requires AllTallied(st.table, true) && Distinct(st.table) && CleanInput(st.table, input)
    requires HandsOn(input) && input.event.Datagram?
    ensures var (u, i) := TakeIn(st.table, input.event.content);
            i.Some? ==>
              && u[i.value].total <= |u[i.value].sizes|
              && (u[i.value] in Step(st, input).1 <==> !MissesOne(u[i.value]))
              && (MissesOne(u[i.value]) ==> Step(st, input).1 == [])
  {
    var c := input.event.content;
    TakeInKeepsWellFormed(st.table, c);
    TakeInTallied(st.table, input.event.resendable, c, input.cfg, true);
    var (u, i) := TakeIn(st.table, c);
    if i.Some? {
      CountedIsExact(u[i.value]);
      DrainMeans(u, i.value);
    }
  }

  /** In every clean run every frame in the table still misses a packet: so a
      frame goes out with exactly the datagram that settles the last one. */
  lemma {:induction false} GoesOutIffLastMissing(slots: nat, inputs: seq<Input>, input: Input)
    requires LegalRun(inputs, slots) && CleanRun(Start(slots), inputs)
    requires forall k :: 0 <= k < |inputs| ==> HandsOn(inputs[k])
    requires LegalEvent(input.event, slots) && HandsOn(input) && input.event.Datagram?
    requires CleanInput(Run(Start(slots), inputs).0.table, input)
    ensures var st := Run(Start(slots), inputs).0;
            && AllWellFormed(st.table) && |st.table| == slots
            && (forall k :: 0 <= k < slots && Active(st.table[k]) ==> MissesOne(st.table[k]))
            && var (u, i) := TakeIn(st.table, input.event.content);
               i.Some? ==>
                 && u[i.value].total <= |u[i.value].sizes|
                 && (u[i.value] in Step(st, input).1 <==> !MissesOne(u[i.value]))
                 && (MissesOne(u[i.value]) ==> Step(st, input).1 == [])
  {
    RunTallied(Start(slots), inputs, true);
    RunNoneComplete(Start(slots), inputs);
    var st := Run(Start(slots), inputs).0;
    forall k | 0 <= k < slots && Active(st.table[k]) ensures MissesOne(st.table[k]) {
      assert Tallied(st.table[k], true);
      CountedIsExact(st.table[k]);
    }
    StepGoesOutIff(st, input);
  }
}
