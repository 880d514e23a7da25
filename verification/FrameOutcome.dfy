/** How a frame leaves the table (protocol v2): every frame that a step takes
    out of it is handed on in that step, and a timeout check leaves a frame
    alone until it has waited long enough. */
module FrameOutcome {
  import opened FrameRetry
  import opened FrameRuns
  import opened FrameTable
  import opened Types

  // ---- Nothing is dropped ----

  /** Every frame of `t` not in use in `u` any more was handed on. */
  predicate HandedOn(t: Table, u: Table, out: seq<Slot>) {
    |u| == |t| && forall k :: 0 <= k < |t| && Active(t[k]) && !Active(u[k]) ==> Among(t[k], out)
  }

  predicate Among(s: Slot, out: seq<Slot>) {
    exists m :: 0 <= m < |out| && Active(out[m]) && SameFrame(s, out[m])
  }

  lemma {:induction false} DrainHandsOn(t: Table, i: nat)
    requires i < |t|
    ensures HandedOn(t, Drain(t, i).0, Drain(t, i).1)
    decreases ActiveCount(t)
  {
    var o := OlderThan(t, t[i].timestamp, |t|);
    if o.Some? {
      var r := o.value;
      RetireCounts(t, r);
      var v := t[r := Retire(t[r])];
      DrainHandsOn(v, i);
      var (u, out) := Drain(v, i);
      forall k | 0 <= k < |t| && Active(t[k]) && !Active(u[k]) ensures Among(t[k], [t[r]] + out) {
        if k == r {
          assert ([t[r]] + out)[0] == t[k];
        } else {
          assert Among(v[k], out);
          var m :| 0 <= m < |out| && Active(out[m]) && SameFrame(t[k], out[m]);
          assert ([t[r]] + out)[m + 1] == out[m];
        }
      }
    }
  }

  lemma {:induction false} AmongMore(s: Slot, r: Slot, out: seq<Slot>, more: seq<Slot>)
    requires SameFrame(s, r) && Among(r, more)
    ensures Among(s, out + more)
  {
    var m :| 0 <= m < |more| && Active(more[m]) && SameFrame(r, more[m]);
    assert (out + more)[|out| + m] == more[m];
  }

  lemma {:induction false} AmongFirst(s: Slot, out: seq<Slot>, more: seq<Slot>)
    requires Among(s, out)
    ensures Among(s, out + more)
  {
    var m :| 0 <= m < |out| && Active(out[m]) && SameFrame(s, out[m]);
    assert (out + more)[m] == out[m];
  }

  lemma {:induction false} CheckSlotHandsOn(t: Table, i: nat, now: nat, cfg: Config, support: bool, sent: SendResult)
    requires i < |t|
    ensures var (u, out) := CheckSlot(t, i, now, cfg, support, sent);
            HandedOn(t, u, out) && SameFrames(t, u)
  {
    DrainHandsOn(t, i);
    CheckSlotSameFrames(t, i, now, cfg, support, sent);
  }

  lemma {:induction false} CheckSlotsHandOn(t: Table, n: nat, now: nat, cfg: Config, support: bool,
                                            sent: seq<SendResult>)
    requires n <= |t| == |sent|
    ensures var (u, out) := CheckSlots(t, n, now, cfg, support, sent);
            HandedOn(t, u, out) && SameFrames(t, u)
  {
    if n > 0 {
      CheckSlotsHandOn(t, n - 1, now, cfg, support, sent);
      var (u, out) := CheckSlots(t, n - 1, now, cfg, support, sent);
      CheckSlotHandsOn(u, n - 1, now, cfg, support, sent[n - 1]);
      var (v, more) := CheckSlot(u, n - 1, now, cfg, support, sent[n - 1]);
      forall k | 0 <= k < |t| ensures SameFrame(t[k], v[k]) {
        assert SameFrame(t[k], u[k]) && SameFrame(u[k], v[k]);
      }
      forall k | 0 <= k < |t| && Active(t[k]) && !Active(v[k]) ensures Among(t[k], out + more) {
        if Active(u[k]) {
          assert Among(u[k], more) && SameFrame(t[k], u[k]);
          AmongMore(t[k], u[k], out, more);
        } else {
          AmongFirst(t[k], out, more);
        }
      }
    }
  }

  lemma {:induction false} AfterPacketHandsOn(t: Table, i: nat, packetCounter: Option<nat>, cfg: Config, support: bool,
                                              o: Outside)
    requires AllWellFormed(t) && i < |t| && Active(t[i])
    requires packetCounter.Some? ==> packetCounter.value < t[i].total
    ensures var (u, out) := AfterPacket(t, i, packetCounter, cfg, support, o);
            HandedOn(t, u, out)
  {
    var (u, out) := AfterPacket(t, i, packetCounter, cfg, support, o);
    if cfg.mode == 0 || !support {
      if Complete(t[i]) {
        assert out[0] == t[i];
      }
    } else if cfg.mode == 1 && Complete(t[i]) {
      DrainHandsOn(t, i);
    }
  }

  /** In every step, of a timeout check or of a datagram once it is taken in,
      each frame that leaves the table is handed on, as it was. */
  lemma {:induction false} StepHandsOn(st: State, input: Input)
    requires AllWellFormed(st.table) && LegalEvent(input.event, |st.table|)
    ensures HandedOn(Taken(st, input), Step(st, input).0.table, Step(st, input).1)
  {
    match input.event
    case Datagram(resendable, c) =>
      TakeInKeepsWellFormed(st.table, c);
      var (u, i) := TakeIn(st.table, c);
      if i.Some? {
        if c.Data? {
          AfterPacketHandsOn(u, i.value, Some(c.p.packetCounter), input.cfg, resendable, c.outside);
        } else {
          AfterPacketHandsOn(u, i.value, None, input.cfg, resendable, NOTHING);
        }
      }
    case Check(time, sent) =>
      CheckSlotsHandOn(st.table, |st.table|, time, input.cfg, st.support, sent);
  }

  // ---- Nothing is given up too early ----

  /** The frame has waited long enough at this time. */
  predicate Overdue(s: Slot, time: nat, cfg: Config) {
    s.timestamp != 0 && time as real - s.timeLast as real > cfg.waitTimeout
  }

  /** A drain takes out nothing younger than the frame it is for. */
  lemma {:induction false} DrainSparesYounger(t: Table, i: nat, k: nat)
    requires i < |t| && k < |t| && t[k].timestamp > t[i].timestamp
    ensures |Drain(t, i).0| == |t| && Drain(t, i).0[k] == t[k]
    decreases ActiveCount(t)
  {
    var o := OlderThan(t, t[i].timestamp, |t|);
    if o.Some? {
      RetireCounts(t, o.value);
      DrainSparesYounger(t[o.value := Retire(t[o.value])], i, k);
    }
  }

  /** Slot k goes unchanged through the first n turns, unless a frame not older
      than it has waited long enough. */
  lemma {:induction false} SparedUpTo(t: Table, n: nat, k: nat, now: nat, cfg: Config, support: bool,
                                      sent: seq<SendResult>)
    requires n <= |t| == |sent| && k < |t| && Active(t[k])
    requires forall j :: 0 <= j < |t| && t[j].timestamp >= t[k].timestamp ==> !Overdue(t[j], now, cfg)
    ensures var u := CheckSlots(t, n, now, cfg, support, sent).0;
            u[k] == t[k] && SameFrames(t, u)
  {
    if n > 0 {
      SparedUpTo(t, n - 1, k, now, cfg, support, sent);
      CheckSlotsSameFrames(t, n, now, cfg, support, sent);
      var u := CheckSlots(t, n - 1, now, cfg, support, sent).0;
      assert SameFrame(t[n - 1], u[n - 1]);
      if TimedOut(u[n - 1], now, cfg) {
        assert Overdue(t[n - 1], now, cfg);
        DrainSparesYounger(u, n - 1, k);
      }
    }
  }

  /** A check leaves a frame as it is, and in the table, until the frame itself
      or one not older than it has received nothing for the timeout. */
  lemma {:induction false} CheckSpares(st: State, input: Input, k: nat)
    requires AllWellFormed(st.table) && LegalEvent(input.event, |st.table|) && input.event.Check?
    requires k < |st.table| && Active(st.table[k])
    requires forall j :: 0 <= j < |st.table| && st.table[j].timestamp >= st.table[k].timestamp ==>
               !Overdue(st.table[j], input.event.time, input.cfg)
    ensures Step(st, input).0.table[k] == st.table[k]
  {
    SparedUpTo(st.table, |st.table|, k, input.event.time, input.cfg, st.support, input.event.sent);
  }
}
