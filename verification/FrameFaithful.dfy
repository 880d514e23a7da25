/** Reassembly is faithful (protocol v2): whatever is lost, repeated or
    reordered, what the table holds of a frame is what was sent. */
module FrameFaithful {
  import opened Types
  import opened FrameTable
  import opened FrameRuns

  /** A frame as sent: packet k carries the bytes from cuts[k] up to cuts[k + 1]. */
  datatype SentFrame = SentFrame(bytes: seq<byte>, cuts: seq<nat>)

  predicate Tiles(f: SentFrame) {
    && 2 <= |f.cuts| <= UINT16_RANGE
    && f.cuts[0] == 0 && f.cuts[|f.cuts| - 1] == |f.bytes|
    && (forall i, j :: 0 <= i < j < |f.cuts| ==> f.cuts[i] < f.cuts[j])
    && (forall k :: 0 <= k < |f.cuts| - 1 ==> f.cuts[k + 1] - f.cuts[k] < NDA)
  }

  /** What the sender sends, by frame counter. */
  type Sender = map<nat, SentFrame>

  predicate Honest(sender: Sender) {
    forall c :: c in sender ==> Tiles(sender[c])
  }

  predicate Genuine(p: Packet, sender: Sender)
    requires Honest(sender)
  {
    && p.frameCounter in sender
    && var f := sender[p.frameCounter];
       && p.total == |f.cuts| - 1 && p.frameLen == |f.bytes|
       && p.packetCounter < p.total && p.position == f.cuts[p.packetCounter]
       && p.data == f.bytes[p.position..f.cuts[p.packetCounter + 1]]
  }

  predicate Received(s: Slot, k: nat)
    requires k < |s.sizes|
  {
    s.sizes[k] != 0 && s.sizes[k] != NDA
  }

  /** Packet k of the slot, if marked received, holds exactly the sent bytes
      in the sent place. */
  predicate PacketMatches(s: Slot, f: SentFrame, k: nat)
    requires k < |s.sizes| == |s.starts| && k + 1 < |f.cuts| && Tiles(f) && |f.bytes| <= |s.frame|
  {
    Received(s, k) ==>
      && s.starts[k] == f.cuts[k] && s.sizes[k] == f.cuts[k + 1] - f.cuts[k]
      && s.frame[f.cuts[k]..f.cuts[k + 1]] == f.bytes[f.cuts[k]..f.cuts[k + 1]]
  }

  /** What a slot holds agrees with the frame sent. */
  predicate Matches(s: Slot, f: SentFrame) {
    && Tiles(f) && WellFormed(s)
    && s.total == |f.cuts| - 1 <= |s.sizes| && s.frameSize == |f.bytes| <= |s.frame|
    && forall k :: 0 <= k < s.total ==> PacketMatches(s, f, k)
  }

  predicate Faithful(s: Slot, sender: Sender) {
    Active(s) ==> s.frameCounter in sender && Matches(s, sender[s.frameCounter])
  }

  predicate AllFaithful(t: seq<Slot>, sender: Sender) {
    forall i :: 0 <= i < |t| ==> Faithful(t[i], sender)
  }

  // ---- Each operation ----

  lemma {:induction false} InitMatches(s: Slot, now: nat, frameCounter: nat, f: SentFrame, buffer: seq<byte>)
    requires Tiles(f) && |buffer| == |f.bytes| < UINT32_RANGE && WellFormed(s)
    ensures var r := Init(s, now, frameCounter, |f.bytes|, |f.cuts| - 1, buffer);
            r.Some? && Matches(r.value, f)
  {
  }

  /** Storing a packet that was sent keeps the match: the bytes it overwrites
      are the same bytes. */
  lemma {:induction false} StoreMatches(s: Slot, f: SentFrame, k: nat, now: nat)
    requires Matches(s, f) && k < s.total && s.sizes[k] != NDA
    ensures Matches(Store(s, k, f.cuts[k], f.bytes[f.cuts[k]..f.cuts[k + 1]], now), f)
  {
    var data := f.bytes[f.cuts[k]..f.cuts[k + 1]];
    var r := Store(s, k, f.cuts[k], data, now);
    forall m | 0 <= m < s.total ensures PacketMatches(r, f, m) {
      assert PacketMatches(s, f, m);
    }
  }

  lemma {:induction false} MarkNdaMatches(s: Slot, f: SentFrame, counters: seq<nat>)
    requires Matches(s, f)
    ensures Matches(MarkNda(s, counters), f)
    decreases |counters|
  {
    if counters != [] && counters[0] < s.total && counters[0] < |s.sizes| {
      var r := s.(nda := (s.nda + 1) % UINT16_RANGE, sizes := s.sizes[counters[0] := NDA]);
      forall m | 0 <= m < r.total ensures PacketMatches(r, f, m) {
        assert PacketMatches(s, f, m);
      }
      MarkNdaMatches(r, f, counters[1..]);
    }
  }

  lemma {:induction false} ClaimFaithful(t: Table, p: Packet, now: nat, buffer: seq<byte>, sender: Sender)
    requires AllWellFormed(t) && Legal(p) && |buffer| == p.frameLen && 0 < now
    requires Honest(sender) && Genuine(p, sender) && AllFaithful(t, sender)
    ensures var claim := Claim(t, p, now, buffer);
            claim.Some? ==> AllFaithful(claim.value.0, sender)
  {
    if Claim(t, p, now, buffer).Some? && Find(t, p.frameCounter, |t|).None? {
      var free := Free(t, |t|);
      var chosen := if free.Some? then free.value else Oldest(t, |t|).value;
      InitMatches(t[chosen], now, p.frameCounter, sender[p.frameCounter], buffer);
    }
  }

  lemma {:induction false} ReceiveFaithful(t: Table, p: Packet, now: nat, later: nat, buffer: seq<byte>, sender: Sender)
    requires AllWellFormed(t) && Legal(p) && |buffer| == p.frameLen && 0 < now
    requires Honest(sender) && Genuine(p, sender) && AllFaithful(t, sender)
    ensures AllFaithful(Receive(t, p, now, later, buffer).0, sender)
  {
    var f := sender[p.frameCounter];
    var claim := Claim(t, p, now, buffer);
    if claim.Some? {
      var (u, i) := claim.value;
      ClaimKeepsWellFormed(t, p, now, buffer);
      ClaimFaithful(t, p, now, buffer, sender);
      assert Faithful(u[i], sender);
      if u[i].sizes[p.packetCounter] != NDA {
        StoreMatches(u[i], f, p.packetCounter, later);
      }
    }
  }

  lemma {:induction false} TakeInFaithful(t: Table, c: Content, sender: Sender)
    requires AllWellFormed(t) && LegalContent(c)
    requires Honest(sender) && (c.Data? ==> Genuine(c.p, sender)) && AllFaithful(t, sender)
    ensures AllFaithful(TakeIn(t, c).0, sender)
  {
    match c
    case Rejected =>
    case Data(p, now, later, buffer, _) => ReceiveFaithful(t, p, now, later, buffer, sender);
    case Unavailable(frameCounter, first, counters) =>
      var found := Find(t, frameCounter, |t|);
      if found.Some? {
        MarkNdaKeepsWellFormed(t[found.value], counters);
        MarkNdaMatches(t[found.value], sender[t[found.value].frameCounter], counters);
      }
  }

  lemma {:induction false} SameFrameFaithful(s: Slot, s': Slot, sender: Sender)
    requires SameFrame(s, s') && Faithful(s, sender)
    ensures Faithful(s', sender)
  {
    if Active(s') {
      var f := sender[s.frameCounter];
      forall k | 0 <= k < s'.total ensures PacketMatches(s', f, k) {
        assert PacketMatches(s, f, k);
      }
    }
  }

  // ---- Whole runs ----

  /** Data packets come from the sender; anything else may happen. */
  predicate FromSender(input: Input, sender: Sender) {
    Honest(sender) && (input.event.Datagram? && input.event.content.Data? ==> Genuine(input.event.content.p, sender))
  }

  lemma {:induction false} StepFaithful(st: State, input: Input, sender: Sender)
    requires AllWellFormed(st.table) && LegalEvent(input.event, |st.table|)
    requires FromSender(input, sender) && AllFaithful(st.table, sender)
    ensures var (next, out) := Step(st, input);
            AllFaithful(next.table, sender) && AllFaithful(out, sender)
  {
    if input.event.Datagram? {
      TakeInFaithful(st.table, input.event.content, sender);
    }
    StepSameFrames(st, input);
    var t := Taken(st, input);
    var (next, out) := Step(st, input);
    forall i | 0 <= i < |next.table| ensures Faithful(next.table[i], sender) {
      SameFrameFaithful(t[i], next.table[i], sender);
    }
    forall k | 0 <= k < |out| ensures Faithful(out[k], sender) {
      assert Holds(t, out[k]);
      var m :| 0 <= m < |t| && SameFrame(t[m], out[k]);
      SameFrameFaithful(t[m], out[k], sender);
    }
  }

  /** A frame counter may come to stand for another frame (it wraps around)
      once no slot in use refers to the old one. */
  predicate Succeeds(t: Table, before: Sender, after: Sender) {
    forall i :: 0 <= i < |t| && Active(t[i]) && t[i].frameCounter in before ==>
      t[i].frameCounter in after && after[t[i].frameCounter] == before[t[i].frameCounter]
  }

  /** senders[k] is what is being sent at step k. */
  predicate FromSenders(st: State, inputs: seq<Input>, senders: seq<Sender>)
    requires AllWellFormed(st.table) && LegalRun(inputs, |st.table|)
    decreases |inputs|
  {
    if inputs == [] then senders == []
    else
      StepKeepsWellFormed(st, inputs[0]);
      var next := Step(st, inputs[0]).0;
      && |senders| == |inputs|
      && FromSender(inputs[0], senders[0])
      && (|inputs| > 1 ==> Succeeds(next.table, senders[0], senders[1]))
      && FromSenders(next, inputs[1..], senders[1..])
  }

  /** Every frame handed on by the run matches what was being sent under its
      counter at some step of the run. */
  predicate OutputFaithful(out: seq<Slot>, senders: seq<Sender>) {
    forall k :: 0 <= k < |out| ==> exists m :: 0 <= m < |senders| && Faithful(out[k], senders[m])
  }

  /** In every run, under any loss, repetition and order of arrival, every
      frame handed on holds, wherever a packet is marked received, exactly the
      bytes sent. */
  lemma {:induction false} RunFaithful(st: State, inputs: seq<Input>, senders: seq<Sender>)
    requires AllWellFormed(st.table) && LegalRun(inputs, |st.table|)
    requires FromSenders(st, inputs, senders)
    requires inputs != [] ==> AllFaithful(st.table, senders[0])
    ensures OutputFaithful(Run(st, inputs).1, senders)
    ensures inputs != [] ==> AllFaithful(Run(st, inputs).0.table, senders[|senders| - 1])
    decreases |inputs|
  {
    if inputs != [] {
      StepKeepsWellFormed(st, inputs[0]);
      StepFaithful(st, inputs[0], senders[0]);
      var (next, out) := Step(st, inputs[0]);
      if |inputs| > 1 {
        assert AllFaithful(next.table, senders[1]);
      }
      RunFaithful(next, inputs[1..], senders[1..]);
      var later := Run(next, inputs[1..]).1;
      forall k | 0 <= k < |later| ensures exists m :: 0 <= m < |senders| && Faithful(later[k], senders[m]) {
        var m :| 0 <= m < |senders[1..]| && Faithful(later[k], senders[1..][m]);
        assert Faithful(later[k], senders[m + 1]);
      }
    }
  }

  /** The packet that carries byte x. */
  lemma {:induction false} Covering(f: SentFrame, x: nat, n: nat) returns (k: nat)
    requires Tiles(f) && 0 < n < |f.cuts| && x < f.cuts[n]
    ensures k < n && f.cuts[k] <= x < f.cuts[k + 1]
  {
    if n == 1 || f.cuts[n - 1] <= x {
      k := n - 1;
    } else {
      k := Covering(f, x, n - 1);
    }
  }

  /** Once every packet is marked received the buffer is the frame sent. */
  lemma {:induction false} AllReceived(s: Slot, f: SentFrame)
    requires Matches(s, f)
    requires forall k :: 0 <= k < s.total ==> Received(s, k)
    ensures s.frame[..s.frameSize] == f.bytes
  {
    forall x | 0 <= x < |f.bytes| ensures s.frame[x] == f.bytes[x] {
      var k := Covering(f, x, |f.cuts| - 1);
      assert PacketMatches(s, f, k) && Received(s, k);
      var a, b := f.cuts[k], f.cuts[k + 1];
      assert s.frame[a..b][x - a] == f.bytes[a..b][x - a];
    }
  }

  /** From the start, every frame handed on with nothing missing and nothing
      marked unavailable is a frame that was sent, byte for byte. */
  lemma {:induction false} WholeFramesAreExact(slots: nat, inputs: seq<Input>, sender: Sender, s: Slot)
    requires LegalRun(inputs, slots) && forall k :: 0 <= k < |inputs| ==> FromSender(inputs[k], sender)
    requires s in Run(Start(slots), inputs).1 && Active(s) && s.total <= |s.sizes|
    requires forall k :: 0 <= k < s.total ==> Received(s, k)
    ensures s.frameCounter in sender && s.frameSize <= |s.frame|
            && s.frame[..s.frameSize] == sender[s.frameCounter].bytes
  {
    var senders := seq(|inputs|, _ => sender);
    OneSender(Start(slots), inputs, sender, senders);
    RunFaithful(Start(slots), inputs, senders);
    AllReceived(s, sender[s.frameCounter]);
  }

  lemma {:induction false} OneSender(st: State, inputs: seq<Input>, sender: Sender, senders: seq<Sender>)
    requires AllWellFormed(st.table) && LegalRun(inputs, |st.table|)
    requires forall k :: 0 <= k < |inputs| ==> FromSender(inputs[k], sender)
    requires |senders| == |inputs| && forall k :: 0 <= k < |senders| ==> senders[k] == sender
    ensures FromSenders(st, inputs, senders)
    decreases |inputs|
  {
    if inputs != [] {
      StepKeepsWellFormed(st, inputs[0]);
      OneSender(Step(st, inputs[0]).0, inputs[1..], sender, senders[1..]);
    }
  }
}
