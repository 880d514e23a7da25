/** The protocol v2 part of parseFramesRunFunction in sdk/bta_eth.c in its own
    form: a table of four frame objects changed in place, proved to do exactly
    what the functions of FrameTable do to the table as a value. */
module FrameParser {
  import opened Types
  import opened FrameRequests
  import opened FrameTable
  import opened FrameRuns
  import opened Retransmission
  import F = FrameToParse

  class FrameParser {
    const framesToParse: seq<F.FrameToParse>
    const counters: array<nat>
    var retransmissionSupport: bool

    /** Every object of the frames. */
    ghost function Footprint(): set<object>
      reads *
    {
      set i, o | 0 <= i < |framesToParse| && o in framesToParse[i].Repr() :: o
    }

    /** Objects that came to the frames were newly allocated. */
    twostate predicate OnlyFresh()
      reads *
    {
      forall i, o :: 0 <= i < |framesToParse| && o in framesToParse[i].Repr() ==>
        o in old(framesToParse[i].Repr()) || fresh(o)
    }

    ghost predicate Valid()
      reads *
    {
      && counters.Length == BATCH_MAX
      && (forall i :: 0 <= i < |framesToParse| ==>
            && framesToParse[i].Valid() && counters as object !in framesToParse[i].Repr())
      && (forall i, j :: 0 <= i < j < |framesToParse| ==> framesToParse[i].Repr() !! framesToParse[j].Repr())
    }

    ghost function Table(): (t: Table)
      reads *
      ensures |t| == |framesToParse| && forall i :: 0 <= i < |t| ==> t[i] == framesToParse[i].View()
    {
      FirstFrames(|framesToParse|)
    }

    ghost function FirstFrames(n: nat): (t: Table)
      requires n <= |framesToParse|
      reads *
      ensures |t| == n && forall i :: 0 <= i < n ==> t[i] == framesToParse[i].View()
    {
      if n == 0 then []
      else
        FirstFrames(n - 1) + [framesToParse[n - 1].View()]
    }

    static method CreateFrames(n: nat) returns (frames: seq<F.FrameToParse>)
      ensures |frames| == n
      ensures forall i :: 0 <= i < n ==> fresh(frames[i].Repr()) && frames[i].Valid() && frames[i].View() == EMPTY
      ensures forall i, j :: 0 <= i < j < n ==> frames[i].Repr() !! frames[j].Repr()
    {
      frames := [];
      for ftpInd := 0 to n
        invariant |frames| == ftpInd
        invariant forall i :: 0 <= i < ftpInd ==>
                  fresh(frames[i].Repr()) && frames[i].Valid() && frames[i].View() == EMPTY
        invariant forall i :: 0 <= i < ftpInd ==> forall o :: o in frames[i].Repr() ==> allocated(o)
        invariant forall i, j :: 0 <= i < j < ftpInd ==> frames[i].Repr() !! frames[j].Repr()
      {
        var ftp := new F.FrameToParse();
        frames := frames + [ftp];
      }
    }

    constructor ()
      ensures Valid() && |framesToParse| == 4 && !retransmissionSupport
      ensures forall i :: 0 <= i < 4 ==> Table()[i] == EMPTY
    {
      counters := new nat[BATCH_MAX];
      var frames := CreateFrames(4);
      framesToParse := frames;
      retransmissionSupport := false;
      new;
      assert forall i :: 0 <= i < 4 ==> framesToParse[i].View() == EMPTY;
    }

    method GetOldest() returns (ftp: Option<nat>)
      requires Valid()
      ensures ftp == Oldest(Table(), |framesToParse|)
    {
      var oldest := UINT64_MAX;
      ftp := None;
      for ftpInd := 0 to |framesToParse|
        invariant ftp == Oldest(Table(), ftpInd)
        invariant oldest == if ftp.Some? then Table()[ftp.value].timestamp else UINT64_MAX
      {
        if framesToParse[ftpInd].timestamp != 0 && framesToParse[ftpInd].timestamp < oldest {
          oldest := framesToParse[ftpInd].timestamp;
          ftp := Some(ftpInd);
        }
      }
    }

    method GetOlderThan(olderEqualThan: nat) returns (ftp: Option<nat>)
      requires Valid()
      ensures ftp == OlderThan(Table(), olderEqualThan, |framesToParse|)
    {
      var oldest := olderEqualThan;
      ftp := None;
      for ftpInd := 0 to |framesToParse|
        invariant ftp == OlderThan(Table(), olderEqualThan, ftpInd)
        invariant oldest == if ftp.Some? then Table()[ftp.value].timestamp else olderEqualThan
      {
        if framesToParse[ftpInd].timestamp != 0 && framesToParse[ftpInd].timestamp <= oldest {
          oldest := framesToParse[ftpInd].timestamp;
          ftp := Some(ftpInd);
        }
      }
    }

    method GetNewestBeforeThis(ftpRef: nat) returns (ftp: Option<nat>)
      requires Valid() && ftpRef < |framesToParse|
      ensures ftp == NewestBefore(Table(), Table()[ftpRef].timestamp, |framesToParse|)
    {
      var newest := 0;
      ftp := None;
      for ftpInd := 0 to |framesToParse|
        invariant ftp == NewestBefore(Table(), Table()[ftpRef].timestamp, ftpInd)
        invariant newest == if ftp.Some? then Table()[ftp.value].timestamp else 0
      {
        if framesToParse[ftpInd].timestamp > newest
          && framesToParse[ftpInd].timestamp < framesToParse[ftpRef].timestamp {
          newest := framesToParse[ftpInd].timestamp;
          ftp := Some(ftpInd);
        }
      }
    }

    /** Changing one frame, and allocating for it, changes one entry of the table. */
    twostate lemma OneFrameChanged(i: nat)
      requires i < |framesToParse| && old(Valid()) && framesToParse[i].Valid()
      requires fresh(framesToParse[i].Repr() - old(framesToParse[i].Repr()))
      requires forall j :: 0 <= j < |framesToParse| && j != i ==>
                 unchanged(framesToParse[j]) && unchanged(framesToParse[j].frame)
                 && unchanged(framesToParse[j].packetSizes) && unchanged(framesToParse[j].packetStartAddrs)
      ensures Valid() && Table() == old(Table())[i := framesToParse[i].View()]
    {
      forall j | 0 <= j < |framesToParse| && j != i
        ensures framesToParse[j].View() == old(framesToParse[j].View()) && framesToParse[j].Valid()
                && framesToParse[j].Repr() == old(framesToParse[j].Repr())
      {
      }
    }

    /** Hands frame i on: it is parsed, and no longer in use. */
    method HandOn(i: nat) returns (frame: Slot)
      requires Valid() && i < |framesToParse|
      modifies framesToParse[i]
      ensures retransmissionSupport == old(retransmissionSupport)
      ensures Valid() && frame == old(Table())[i] && Table() == old(Table())[i := Retire(old(Table())[i])]
    {
      frame := framesToParse[i].View();
      framesToParse[i].timestamp := 0;
      OneFrameChanged(i);
    }

    /** Hands on the oldest frame not younger than frame i, if there is one. */
    method HandOnOlder(i: nat) returns (more: bool, frame: Slot)
      requires Valid() && i < |framesToParse|
      modifies framesToParse
      ensures Valid()
      ensures var t := old(Table());
              var r := OlderThan(t, t[i].timestamp, |t|);
              more == r.Some? && Table() == if more then t[r.value := Retire(t[r.value])] else t
      ensures more ==> frame == old(Table())[OlderThan(old(Table()), old(Table())[i].timestamp, |framesToParse|).value]
    {
      var ftpTemp := GetOlderThan(framesToParse[i].timestamp);
      more := ftpTemp.Some?;
      frame := EMPTY;
      if more {
        frame := HandOn(ftpTemp.value);
      }
    }

    /** Hands on, from old to young, everything not younger than frame i. */
    method DrainFor(i: nat) returns (out: seq<Slot>)
      requires Valid() && i < |framesToParse|
      modifies framesToParse
      ensures Valid() && (Table(), out) == Drain(old(Table()), i)
    {
      out := [];
      ghost var was, t := Table(), Table();
      var more := true;
      assert Drained(was, i, t, out, true) by {
        assert [] + Drain(t, i).1 == Drain(t, i).1;
      }
      while more
        invariant Valid() && Table() == t && |t| == |framesToParse|
        invariant Drained(was, i, t, out, more)
        decreases if more then 1 + ActiveCount(t) else 0
      {
        DrainStep(was, i, t, out);
        var frame;
        more, frame := HandOnOlder(i);
        if more {
          t := Table();
          out := out + [frame];
        }
      }
    }

    /** Draining `was` for frame i has come to `t`, having handed on `out`. */
    static ghost predicate Drained(was: Table, i: nat, t: Table, out: seq<Slot>, more: bool) {
      && |was| == |t| && i < |t|
      && Drain(was, i) == (Drain(t, i).0, out + Drain(t, i).1)
      && (!more ==> Drain(was, i) == (t, out))
    }

    static lemma {:induction false} DrainStep(was: Table, i: nat, t: Table, out: seq<Slot>)
      requires Drained(was, i, t, out, true)
      ensures var r := OlderThan(t, t[i].timestamp, |t|);
              if r.None? then Drained(was, i, t, out, false)
              else var u := t[r.value := Retire(t[r.value])];
                   ActiveCount(u) < ActiveCount(t) && Drained(was, i, u, out + [t[r.value]], true)
    {
      var r := OlderThan(t, t[i].timestamp, |t|);
      if r.Some? {
        RetireCounts(t, r.value);
        assert out + ([t[r.value]] + Drain(t[r.value := Retire(t[r.value])], i).1)
            == out + [t[r.value]] + Drain(t[r.value := Retire(t[r.value])], i).1;
      } else {
        assert Drain(t, i) == (t, []);
        assert out + [] == out;
      }
    }

    // ---- A data packet ----

    /** The frame in use for `frameCounter`, and the last free one seen. */
    method FindFrame(frameCounter: nat) returns (ftp: Option<nat>, ftpFree: Option<nat>)
      requires Valid()
      ensures ftp == Find(Table(), frameCounter, |framesToParse|)
      ensures ftp.None? ==> ftpFree == Free(Table(), |framesToParse|)
    {
      ftp, ftpFree := None, None;
      ghost var t := Table();
      for ftpInd := 0 to |framesToParse|
        invariant ftp.None? && ftp == Find(t, frameCounter, ftpInd) && ftpFree == Free(t, ftpInd)
      {
        if framesToParse[ftpInd].timestamp != 0 {
          if framesToParse[ftpInd].frameCounter == frameCounter {
            ftp := Some(ftpInd);
            FindFirst(t, frameCounter, ftpInd, |t|);
            return;
          }
        } else {
          ftpFree := Some(ftpInd);
        }
      }
    }

    static lemma {:induction false} FindFirst(t: Table, frameCounter: nat, i: nat, n: nat)
      requires i < n <= |t| && Find(t, frameCounter, i).None? && Active(t[i]) && t[i].frameCounter == frameCounter
      ensures Find(t, frameCounter, n) == Some(i)
    {
      if n > i + 1 {
        FindFirst(t, frameCounter, i, n - 1);
      }
    }

    /** Making slot i ready turned `t` into `u`, unless it failed. */
    static ghost predicate Made(t: Table, i: nat, p: Packet, now: nat, buffer: seq<byte>, u: Table, ok: bool) {
      && i < |t|
      && var r := FrameTable.Init(t[i], now, p.frameCounter, p.frameLen, p.total, buffer);
         ok == r.Some? && u == if r.Some? then t[i := r.value] else t
    }

    /** Makes frame i ready for the frame of a packet. */
    method InitFrame(i: nat, p: Packet, now: nat) returns (ok: bool, ghost buffer: seq<byte>)
      requires Valid() && i < |framesToParse| && Legal(p)
      modifies framesToParse[i].Repr()
      ensures retransmissionSupport == old(retransmissionSupport)
      ensures Valid() && |buffer| == p.frameLen && OnlyFresh()
      ensures Made(old(Table()), i, p, now, buffer, Table(), ok)
    {
      ghost var t := Table();
      var status;
      status, buffer := framesToParse[i].Init(now, p.frameCounter, p.frameLen, p.total);
      ok := status == F.Status.Ok;
      OneFrameChanged(i);
    }

    method PickFrame(ftpFree: Option<nat>) returns (ftp: Option<nat>)
      requires Valid()
      ensures ftp == if ftpFree.Some? then ftpFree else Oldest(Table(), |framesToParse|)
    {
      ftp := ftpFree;
      if ftp.None? {
        ftp := GetOldest();
      }
    }

    /** The slot for a frame not seen before: a free one, or that of the
        oldest frame, made ready. */
    method ClaimNew(p: Packet, ftpFree: Option<nat>, now: nat) returns (ftp: Option<nat>, ghost buffer: seq<byte>)
      requires Valid() && Legal(p) && 0 < now
      requires !p.resent && Find(Table(), p.frameCounter, |framesToParse|).None?
      requires ftpFree == Free(Table(), |framesToParse|)
      modifies Footprint()
      ensures retransmissionSupport == old(retransmissionSupport)
      ensures Valid() && |buffer| == p.frameLen && OnlyFresh()
      ensures Claimed(old(Table()), p, now, buffer, Table(), ftp)
    {
      ghost var t := Table();
      ftp := PickFrame(ftpFree);
      buffer := seq(p.frameLen, _ => 0);
      if ftp.None? {
        return;
      }
      var ok;
      ok, buffer := InitFrame(ftp.value, p, now);
      NewIsClaimed(t, p, now, buffer, ftp.value, Table(), ok);
      if !ok {
        ftp := None;
      }
    }

    static lemma {:induction false} NewIsClaimed(t: Table, p: Packet, now: nat, buffer: seq<byte>, i: nat, u: Table,
                                                 ok: bool)
      requires !p.resent && Find(t, p.frameCounter, |t|).None? && Made(t, i, p, now, buffer, u, ok)
      requires Some(i) == if Free(t, |t|).Some? then Free(t, |t|) else Oldest(t, |t|)
      ensures Claimed(t, p, now, buffer, u, if ok then Some(i) else None)
    {
    }

    static ghost predicate Claimed(t: Table, p: Packet, now: nat, buffer: seq<byte>, u: Table, ftp: Option<nat>) {
      var claim := Claim(t, p, now, buffer);
      if claim.Some? then ftp == Some(claim.value.1) && u == claim.value.0 else ftp.None? && u == t
    }

    /** The frame for a packet, made ready if it is a new one. */
    method ClaimFrame(p: Packet, now: nat) returns (ftp: Option<nat>, ghost buffer: seq<byte>)
      requires Valid() && Legal(p) && 0 < now
      modifies Footprint()
      ensures retransmissionSupport == old(retransmissionSupport)
      ensures Valid() && |buffer| == p.frameLen && OnlyFresh()
      ensures Claimed(old(Table()), p, now, buffer, Table(), ftp)
    {
      buffer := seq(p.frameLen, _ => 0);
      var ftpFree;
      ftp, ftpFree := FindFrame(p.frameCounter);
      if ftp.None? && !p.resent {
        ftp, buffer := ClaimNew(p, ftpFree, now);
      }
    }

    /** Stores a packet in frame i. */
    method StoreInFrame(i: nat, packetCounter: nat, position: nat, data: seq<byte>, now: nat)
      requires Valid() && i < |framesToParse|
      requires var s := Table()[i];
               Active(s) && packetCounter < s.total
      modifies framesToParse[i].Repr()
      ensures retransmissionSupport == old(retransmissionSupport)
      ensures Valid()
      ensures Table() == old(Table())[i := FrameTable.Store(old(Table())[i], packetCounter, position, data, now)]
    {
      framesToParse[i].Store(packetCounter, position, data, now);
      OneFrameChanged(i);
    }

    /** Puts a packet into frame i, unless it contradicts the frame or comes
        too late. */
    method PlaceInFrame(i: nat, p: Packet, later: nat) returns (ftp: Option<nat>)
      requires Valid() && i < |framesToParse| && Active(Table()[i])
      requires p.packetCounter < p.total
      modifies framesToParse[i].Repr()
      ensures retransmissionSupport == old(retransmissionSupport)
      ensures Valid() && WellFormed(old(Table())[i])
      ensures (Table(), ftp) == Place(old(Table()), i, p, later)
    {
      ftp := None;
      if p.frameLen != framesToParse[i].frameSize || p.total != framesToParse[i].packetCountTotal {
        var frame := HandOn(i);
      } else if framesToParse[i].packetSizes[p.packetCounter] != NDA {
        StoreInFrame(i, p.packetCounter, p.position, p.data, later);
        ftp := Some(i);
      }
    }

    /** Takes in a data packet; the result is the frame it was stored in. */
    method TakeData(p: Packet, now: nat, later: nat) returns (ftp: Option<nat>, ghost buffer: seq<byte>)
      requires Valid() && Legal(p) && 0 < now
      modifies Footprint()
      ensures retransmissionSupport == old(retransmissionSupport)
      ensures Valid() && Taken(old(Table()), p, now, later, buffer, Table(), ftp)
    {
      ghost var t := Table();
      assert AllWellFormed(t);
      ftp, buffer := None, seq(p.frameLen, _ => 0);
      if (p.position + |p.data|) % UINT32_RANGE > p.frameLen {
        return;
      }
      if p.packetCounter >= p.total {
        return;
      }
      ftp, buffer := ClaimFrame(p, now);
      ghost var u, i := Table(), ftp;
      ClaimedIsWellFormed(t, p, now, buffer, u, i);
      if ftp.Some? {
        ftp := PlaceInFrame(ftp.value, p, later);
      }
      PlacedIsTaken(t, p, now, later, buffer, u, i, Table(), ftp);
    }

    /** Receiving p turned `t` into `u`. */
    static ghost predicate Taken(t: Table, p: Packet, now: nat, later: nat, buffer: seq<byte>, u: Table,
                                 ftp: Option<nat>)
    {
      && AllWellFormed(t) && Legal(p) && |buffer| == p.frameLen && 0 < now
      && (u, ftp) == Receive(t, p, now, later, buffer)
    }

    static lemma {:induction false} ClaimedIsWellFormed(t: Table, p: Packet, now: nat, buffer: seq<byte>, u: Table,
                                                        i: Option<nat>)
      requires AllWellFormed(t) && Legal(p) && |buffer| == p.frameLen && 0 < now && Claimed(t, p, now, buffer, u, i)
      ensures i.Some? ==> i.value < |u| == |t| && WellFormed(u[i.value]) && Active(u[i.value])
    {
      ClaimKeepsWellFormed(t, p, now, buffer);
    }

    static lemma {:induction false} PlacedIsTaken(t: Table, p: Packet, now: nat, later: nat, buffer: seq<byte>,
                                                  u: Table, i: Option<nat>, v: Table, ftp: Option<nat>)
      requires AllWellFormed(t) && Legal(p) && |buffer| == p.frameLen && 0 < now
      requires FitsFrame(p) && p.packetCounter < p.total && Claimed(t, p, now, buffer, u, i)
      requires if i.None? then v == u && ftp == None
               else
                 && i.value < |u| && WellFormed(u[i.value]) && Active(u[i.value])
                 && (v, ftp) == Place(u, i.value, p, later)
      ensures Taken(t, p, now, later, buffer, v, ftp)
    {
      ClaimKeepsWellFormed(t, p, now, buffer);
    }

    // ---- An NDA packet ----

    method MarkNdaInFrame(i: nat, packetCounters: seq<nat>)
      requires Valid() && i < |framesToParse| && Active(Table()[i])
      modifies framesToParse[i].Repr()
      ensures retransmissionSupport == old(retransmissionSupport)
      ensures Valid() && Table() == old(Table())[i := MarkNda(old(Table())[i], packetCounters)]
    {
      framesToParse[i].MarkNda(packetCounters);
      OneFrameChanged(i);
    }

    /** Takes in a list of packets the sender no longer has; `first` is the
        first counter listed. */
    method TakeNda(frameCounter: nat, first: nat, packetCounters: seq<nat>) returns (ftp: Option<nat>)
      requires Valid()
      modifies Footprint()
      ensures retransmissionSupport == old(retransmissionSupport)
      ensures Valid() && (Table(), ftp) == ReceiveNda(old(Table()), frameCounter, first, packetCounters)
    {
      var ftpFree;
      ftp, ftpFree := FindFrame(frameCounter);
      if ftp.None? {
        return;
      }
      if first == 0 {
        var frame := HandOn(ftp.value);
        ftp := None;
      } else {
        MarkNdaInFrame(ftp.value, packetCounters);
      }
    }

    // ---- After a packet ----

    /** Requests a gap of frame i. */
    method RequestGap(i: nat, gapBegin: nat, gapEnd: nat, sent: nat -> bool, clock: nat, interval: nat)
      returns (result: SendResult, batches: seq<seq<nat>>)
      requires Valid() && i < |framesToParse| && gapBegin <= gapEnd < UINT16_RANGE - 1
      modifies framesToParse[i], counters
      ensures Valid() && Table() == old(Table())[i := Requested(old(Table())[i], result, interval)]
      ensures Asked(Range(gapBegin, gapEnd + 1), batches, sent, clock, result)
    {
      var status;
      status, batches := framesToParse[i].SendRetrReqGap(counters, gapBegin, gapEnd, sent, clock, interval);
      result := if status == F.Status.Ok then Some(clock) else None;
      OneFrameChanged(i);
    }

    /** The gap directly before packet `packetCounter` of frame i. */
    method FindOwnGap(i: nat, packetCounter: nat) returns (gap: Option<(nat, nat)>)
      requires Valid() && i < |framesToParse| && packetCounter < |Table()[i].sizes|
      ensures gap == OwnGap(Table()[i].sizes, packetCounter)
    {
      gap := None;
      if packetCounter > 0 && framesToParse[i].packetSizes[packetCounter - 1] == 0 {
        var gapBegin := framesToParse[i].GapBegin(packetCounter - 1);
        gap := Some((gapBegin, packetCounter - 1));
      }
    }

    /** The gap at the end of the frame before frame i, tested for with the
        number of packets of frame i. */
    method FindPreviousGap(i: nat, beyond: nat) returns (previous: Option<nat>, gap: Option<(nat, nat)>)
      requires Valid() && i < |framesToParse| && Active(Table()[i])
      ensures FoundPrevious(Table(), i, beyond, previous, gap)
      ensures gap.Some? ==> && previous.Some? && previous.value < |framesToParse|
                            && gap.value.0 <= gap.value.1 < UINT16_RANGE - 1
    {
      gap := None;
      previous := GetNewestBeforeThis(i);
      if previous.Some? {
        var ftpPrev := framesToParse[previous.value];
        var size := ftpPrev.ReadSize(framesToParse[i].packetCountTotal - 1, beyond);
        if size == 0 {
          var gapBegin := ftpPrev.GapBegin(ftpPrev.packetCountTotal - 1);
          gap := Some((gapBegin, ftpPrev.packetCountTotal - 1));
        }
      }
    }

    static ghost predicate FoundPrevious(t: Table, i: nat, beyond: nat, previous: Option<nat>,
                                         gap: Option<(nat, nat)>) {
      && AllWellFormed(t) && i < |t| && Active(t[i])
      && previous == NewestBefore(t, t[i].timestamp, |t|)
      && gap == if previous.Some? then PreviousGap(t[previous.value], t[i].total, beyond) else None
    }

    /** Requests the gap at the end of the previous frame, if there is one. */
    method RequestPreviousGap(i: nat, beyond: nat, interval: nat, sent: nat -> bool, clock: nat)
      returns (result: SendResult, batches: seq<seq<nat>>)
      requires Valid() && i < |framesToParse| && Active(Table()[i])
      modifies framesToParse, counters
      ensures Valid() && AllWellFormed(old(Table()))
      ensures PreviousRequested(old(Table()), i, beyond, interval, Table(), result, batches, sent, clock)
    {
      ghost var t := Table();
      result, batches := None, [];
      var previous, gap := FindPreviousGap(i, beyond);
      if gap.Some? {
        result, batches := RequestGap(previous.value, gap.value.0, gap.value.1, sent, clock, interval);
      }
      PreviousIsRequested(t, i, beyond, previous, gap, interval, Table(), result, batches, sent, clock);
    }

    /** The gap request for the frame before frame i turned `t` into `u`. */
    static ghost predicate PreviousRequested(t: Table, i: nat, beyond: nat, interval: nat, u: Table, result: SendResult,
                                             batches: seq<seq<nat>>, sent: nat -> bool, clock: nat)
      requires AllWellFormed(t) && i < |t| && Active(t[i])
    {
      var previous := NewestBefore(t, t[i].timestamp, |t|);
      if previous.Some? && PreviousGap(t[previous.value], t[i].total, beyond).Some?
      then
        var gap := PreviousGap(t[previous.value], t[i].total, beyond).value;
        && u == t[previous.value := Requested(t[previous.value], result, interval)]
        && Asked(Range(gap.0, gap.1 + 1), batches, sent, clock, result)
      else u == t && NotAsked(batches, result)
    }

    static lemma {:induction false} PreviousIsRequested(t: Table, i: nat, beyond: nat, previous: Option<nat>,
                                                        gap: Option<(nat, nat)>, interval: nat, u: Table,
                                                        result: SendResult, batches: seq<seq<nat>>, sent: nat -> bool,
                                                        clock: nat)
      requires FoundPrevious(t, i, beyond, previous, gap)
      requires if gap.Some?
               then && previous.Some? && previous.value < |t|
                    && u == t[previous.value := Requested(t[previous.value], result, interval)]
                    && Asked(Range(gap.value.0, gap.value.1 + 1), batches, sent, clock, result)
               else u == t && NotAsked(batches, result)
      ensures PreviousRequested(t, i, beyond, interval, u, result, batches, sent, clock)
    {
    }

    /** The look at the previous frame turned `t` into `u`. */
    static ghost predicate LookedBack(t: Table, i: nat, c: nat, beyond: nat, interval: nat, u: Table,
                                      result: SendResult, batches: seq<seq<nat>>, sent: nat -> bool, clock: nat)
    {
      && AllWellFormed(t) && i < |t| && Active(t[i]) && c < t[i].total
      && u == RequestPrevious(t, i, c, interval, Outside(beyond, result, None)) && u[i] == t[i]
      && PreviousGapAsked(t, i, c, beyond, batches, sent, clock, result)
    }

    static lemma {:induction false} HasLookedBack(t: Table, i: nat, c: nat, beyond: nat, interval: nat, u: Table,
                                                  result: SendResult, batches: seq<seq<nat>>, sent: nat -> bool,
                                                  clock: nat)
      requires AllWellFormed(t) && i < |t| && Active(t[i]) && c < t[i].total
      requires if LooksBack(t[i].sizes, c)
               then PreviousRequested(t, i, beyond, interval, u, result, batches, sent, clock)
               else u == t && NotAsked(batches, result)
      ensures LookedBack(t, i, c, beyond, interval, u, result, batches, sent, clock)
    {
      PreviousIsAsked(t, i, c, beyond, batches, sent, clock, result);
    }

    /** The same, provided frame i begins with a gap or has just begun. */
    method RequestPreviousFor(i: nat, packetCounter: nat, gap: Option<(nat, nat)>, beyond: nat, interval: nat,
                              sent: nat -> bool, clock: nat)
      returns (result: SendResult, batches: seq<seq<nat>>)
      requires Valid() && i < |framesToParse| && Active(Table()[i]) && packetCounter < Table()[i].total
      requires gap == OwnGap(Table()[i].sizes, packetCounter)
      modifies framesToParse, counters
      ensures Valid()
      ensures LookedBack(old(Table()), i, packetCounter, beyond, interval, Table(), result, batches, sent, clock)
    {
      result, batches := None, [];
      ghost var t := Table();
      assert AllWellFormed(t);
      if packetCounter == 0 || (gap.Some? && gap.value.0 == 0) {
        result, batches := RequestPreviousGap(i, beyond, interval, sent, clock);
      }
      HasLookedBack(t, i, packetCounter, beyond, interval, Table(), result, batches, sent, clock);
    }

    /** Both requests turned `t` into `v`. */
    static ghost predicate GapsRequested(t: Table, i: nat, c: nat, beyond: nat, interval: nat, v: Table, o: Outside,
                                         previousBatches: seq<seq<nat>>, ownBatches: seq<seq<nat>>,
                                         sent: nat -> nat -> bool, clock: nat -> nat)
    {
      && AllWellFormed(t) && i < |t| && Active(t[i]) && c < t[i].total
      && v == RequestGaps(t, i, c, interval, o)
      && GapsAsked(t, i, c, interval, beyond, o, previousBatches, ownBatches, sent, clock, v)
    }

    static lemma {:induction false} BothRequested(t: Table, i: nat, c: nat, beyond: nat, interval: nat, u: Table,
                                                  v: Table, sentPrevious: SendResult, sentOwn: SendResult,
                                                  previousBatches: seq<seq<nat>>, ownBatches: seq<seq<nat>>,
                                                  sent: nat -> nat -> bool, clock: nat -> nat)
      requires LookedBack(t, i, c, beyond, interval, u, sentPrevious, previousBatches, sent(0), clock(0))
      requires var gap := OwnGap(t[i].sizes, c);
               if gap.Some?
               then && v == u[i := Requested(u[i], sentOwn, interval)]
                    && Asked(Range(gap.value.0, gap.value.1 + 1), ownBatches, sent(1), clock(1), sentOwn)
               else v == u && NotAsked(ownBatches, sentOwn)
      ensures GapsRequested(t, i, c, beyond, interval, v, Outside(beyond, sentPrevious, sentOwn), previousBatches,
                            ownBatches, sent, clock)
    {
      OwnIsAsked(t[i].sizes, c, ownBatches, sent(1), clock(1), sentOwn);
      RetryTimesAreSet(t, i, c, interval, beyond, Outside(beyond, sentPrevious, sentOwn), previousBatches, ownBatches,
                       sent, clock);
    }

    /** What a stored packet that does not complete frame i sets off. Send k of
        the request for the previous frame has the outcome `sent(0)(k)`, send k
        of the other one `sent(1)(k)`. */
    method RequestGapsFor(i: nat, packetCounter: nat, beyond: nat, interval: nat, sent: nat -> nat -> bool,
                          clock: nat -> nat)
      returns (o: Outside, previousBatches: seq<seq<nat>>, ownBatches: seq<seq<nat>>)
      requires Valid() && i < |framesToParse| && Active(Table()[i]) && packetCounter < Table()[i].total
      modifies framesToParse, counters
      ensures Valid()
      ensures GapsRequested(old(Table()), i, packetCounter, beyond, interval, Table(), o, previousBatches, ownBatches,
                            sent, clock)
    {
      ghost var t := Table();
      var sentPrevious, sentOwn: SendResult := None, None;
      ownBatches := [];
      var gap := FindOwnGap(i, packetCounter);
      sentPrevious, previousBatches := RequestPreviousFor(i, packetCounter, gap, beyond, interval, sent(0), clock(0));
      ghost var u := Table();
      if gap.Some? {
        sentOwn, ownBatches := RequestGap(i, gap.value.0, gap.value.1, sent(1), clock(1), interval);
      }
      o := Outside(beyond, sentPrevious, sentOwn);
      BothRequested(t, i, packetCounter, beyond, interval, u, Table(), sentPrevious, sentOwn, previousBatches,
                    ownBatches, sent, clock);
    }

    /** What follows a packet, or an NDA (no packet counter), taken into frame i. */
    method AfterPacketFor(i: nat, packetCounter: Option<nat>, beyond: nat, cfg: Config, sent: nat -> nat -> bool,
                          clock: nat -> nat)
      returns (out: seq<Slot>, o: Outside, previousBatches: seq<seq<nat>>, ownBatches: seq<seq<nat>>)
      requires Valid() && i < |framesToParse| && Active(Table()[i])
      requires packetCounter.Some? ==> packetCounter.value < Table()[i].total
      modifies framesToParse, counters
      ensures Valid() && AllWellFormed(old(Table()))
      ensures (Table(), out) == AfterPacket(old(Table()), i, packetCounter, cfg, retransmissionSupport, o)
      ensures PacketAsks(old(Table()), i, packetCounter, cfg, retransmissionSupport, beyond, o, previousBatches,
                         ownBatches, sent, clock, Table())
    {
      out, o, previousBatches, ownBatches := [], NOTHING, [], [];
      var ftp := framesToParse[i];
      if cfg.mode == 0 || !retransmissionSupport {
        if ftp.packetCountGot + ftp.packetCountNda == ftp.packetCountTotal {
          var frame := HandOn(i);
          out := [frame];
        }
      } else if cfg.mode == 1 {
        if ftp.packetCountGot + ftp.packetCountNda == ftp.packetCountTotal {
          out := DrainFor(i);
        } else if packetCounter.Some? {
          o, previousBatches, ownBatches := RequestGapsFor(i, packetCounter.value, beyond, cfg.interval, sent, clock);
        }
      }
    }

    // ---- The timeout check ----

    /** Requests everything missing of frame i. */
    method RequestComplete(i: nat, sent: nat -> bool, clock: nat, interval: nat)
      returns (result: SendResult, batches: seq<seq<nat>>)
      requires Valid() && i < |framesToParse| && Active(Table()[i])
      modifies framesToParse, counters
      ensures Valid() && Table() == old(Table())[i := Requested(old(Table())[i], result, interval)]
      ensures AllWellFormed(old(Table()))
      ensures Asked(Wanted(old(Table())[i].sizes, old(Table())[i].total), batches, sent, clock, result)
    {
      var status;
      status, batches := framesToParse[i].SendRetrReqComplete(counters, sent, clock, interval);
      result := if status == F.Status.Ok then Some(clock) else None;
      OneFrameChanged(i);
    }

    /** A request that went out counts. */
    method CountRetry(i: nat, result: SendResult)
      requires Valid() && i < |framesToParse|
      modifies framesToParse[i]
      ensures Valid() && Counted(old(Table()), i, result, Table())
    {
      if result.Some? {
        framesToParse[i].retryCount := (framesToParse[i].retryCount + 1) % UINT16_RANGE;
      }
      OneFrameChanged(i);
    }

    static ghost predicate Counted(t: Table, i: nat, result: SendResult, u: Table) {
      && i < |t|
      && u == t[i := if result.None? then t[i] else t[i].(retryCount := (t[i].retryCount + 1) % UINT16_RANGE)]
    }

    /** One more complete request for frame i, counted if it went out. */
    method Retry(i: nat, sent: nat -> bool, clock: nat, interval: nat)
      returns (result: SendResult, batches: seq<seq<nat>>)
      requires Valid() && i < |framesToParse| && Active(Table()[i])
      modifies framesToParse, counters
      ensures Valid() && Retried(old(Table()), i, interval, Table(), result, batches, sent, clock)
    {
      ghost var t := Table();
      result, batches := RequestComplete(i, sent, clock, interval);
      ghost var u := Table();
      CountRetry(i, result);
      HasRetried(t, i, interval, u, Table(), result, batches, sent, clock);
    }

    static lemma {:induction false} HasRetried(t: Table, i: nat, interval: nat, u: Table, v: Table, result: SendResult,
                                               batches: seq<seq<nat>>, sent: nat -> bool, clock: nat)
      requires i < |t| && WellFormed(t[i]) && Active(t[i]) && u == t[i := Requested(t[i], result, interval)]
      requires Counted(u, i, result, v)
      requires Asked(Wanted(t[i].sizes, t[i].total), batches, sent, clock, result)
      ensures Retried(t, i, interval, v, result, batches, sent, clock)
    {
    }

    /** The complete request for frame i turned `t` into `u`. */
    static ghost predicate Retried(t: Table, i: nat, interval: nat, u: Table, result: SendResult,
                                   batches: seq<seq<nat>>, sent: nat -> bool, clock: nat)
    {
      && i < |t| && t[i].total <= |t[i].sizes|
      && u == (if result.None? then t
               else t[i := Requested(t[i], result, interval).(retryCount := (t[i].retryCount + 1) % UINT16_RANGE)])
      && Asked(Wanted(t[i].sizes, t[i].total), batches, sent, clock, result)
    }

    /** A frame whose time has not come. */
    static lemma {:induction false} Spared(t: Table, i: nat, time: nat, cfg: Config, support: bool, sent: nat -> bool,
                                           clock: nat)
      requires i < |t| && (TimedOut(t[i], time, cfg) ==> support && time < t[i].retryTime)
      ensures SlotChecked(t, i, time, cfg, support, None, t, [])
      ensures CheckAsks(t[i], time, cfg, support, [], sent, clock, None)
    {
    }

    /** A frame that no more requests are made for. */
    static lemma {:induction false} GivenUp(t: Table, i: nat, time: nat, cfg: Config, support: bool, sent: nat -> bool,
                                            clock: nat, u: Table, out: seq<Slot>)
      requires i < |t| && TimedOut(t[i], time, cfg) && (u, out) == Drain(t, i)
      requires support ==> time >= t[i].retryTime && t[i].retryCount as real >= cfg.maxAttempts
      ensures SlotChecked(t, i, time, cfg, support, None, u, out)
      ensures CheckAsks(t[i], time, cfg, support, [], sent, clock, None)
    {
    }

    static lemma {:induction false} AskedAgain(t: Table, i: nat, time: nat, cfg: Config, sent: nat -> bool, clock: nat,
                                               u: Table, result: SendResult, batches: seq<seq<nat>>)
      requires i < |t| && TimedOut(t[i], time, cfg) && time >= t[i].retryTime
      requires (t[i].retryCount as real) < cfg.maxAttempts
      requires Retried(t, i, cfg.interval, u, result, batches, sent, clock)
      ensures SlotChecked(t, i, time, cfg, true, result, u, [])
      ensures CheckAsks(t[i], time, cfg, true, batches, sent, clock, result)
    {
    }

    method CheckTimeout(i: nat, time: nat, cfg: Config, sent: nat -> bool, clock: nat)
      returns (out: seq<Slot>, result: SendResult, batches: seq<seq<nat>>)
      requires Valid() && i < |framesToParse|
      modifies framesToParse, counters
      ensures Valid() && SlotChecked(old(Table()), i, time, cfg, retransmissionSupport, result, Table(), out)
      ensures CheckAsks(old(Table())[i], time, cfg, retransmissionSupport, batches, sent, clock, result)
    {
      out, result, batches := [], None, [];
      var ftpTemp := framesToParse[i];
      ghost var t, support := Table(), retransmissionSupport;
      if ftpTemp.timestamp != 0 && time as real > ftpTemp.timeLastPacket as real + cfg.waitTimeout {
        if retransmissionSupport {
          if time >= ftpTemp.retryTime {
            if ftpTemp.retryCount as real >= cfg.maxAttempts {
              out := DrainFor(i);
              GivenUp(t, i, time, cfg, support, sent, clock, Table(), out);
            } else {
              result, batches := Retry(i, sent, clock, cfg.interval);
              AskedAgain(t, i, time, cfg, sent, clock, Table(), result, batches);
            }
          } else {
            Spared(t, i, time, cfg, support, sent, clock);
          }
        } else {
          out := DrainFor(i);
          GivenUp(t, i, time, cfg, support, sent, clock, Table(), out);
        }
      } else {
        Spared(t, i, time, cfg, support, sent, clock);
      }
    }

    /** The check of the first n frames of `t` has come to `u`, with what was
        handed on, the outcomes of the requests and what went out for them. */
    static ghost predicate Checking(t: Table, n: nat, time: nat, cfg: Config, support: bool, sent: nat -> nat -> bool,
                                    clock: nat -> nat, u: Table, out: seq<Slot>, results: seq<SendResult>,
                                    batches: seq<seq<seq<nat>>>)
    {
      && n <= |t| == |u| == |results|
      && CheckedUpTo(t, n, time, cfg, support, results, u, out)
      && AskedUpTo(t, n, time, cfg, support, results, batches, sent, clock)
    }

    static lemma {:induction false} NothingChecked(t: Table, time: nat, cfg: Config, support: bool,
                                                   sent: nat -> nat -> bool, clock: nat -> nat,
                                                   results: seq<SendResult>)
      requires |results| == |t|
      ensures Checking(t, 0, time, cfg, support, sent, clock, t, [], results, [])
    {
    }

    static lemma {:induction false} NextChecked(t: Table, n: nat, time: nat, cfg: Config, support: bool,
                                                sent: nat -> nat -> bool, clock: nat -> nat, u: Table, out: seq<Slot>,
                                                results: seq<SendResult>, batches: seq<seq<seq<nat>>>, v: Table,
                                                more: seq<Slot>, result: SendResult, gone: seq<seq<nat>>)
      requires Checking(t, n, time, cfg, support, sent, clock, u, out, results, batches) && n < |t| == |v|
      requires SlotChecked(u, n, time, cfg, support, result, v, more)
      requires CheckAsks(u[n], time, cfg, support, gone, sent(n), clock(n), result)
      ensures Checking(t, n + 1, time, cfg, support, sent, clock, v, out + more, results[n := result], batches + [gone])
    {
      CheckSlotsNext(t, n, time, cfg, support, results, u, out, result, v, more);
      AskedNext(t, n, time, cfg, support, results, batches, sent, clock, result, gone);
    }

    /** Frame n has its turn. */
    method CheckNext(n: nat, time: nat, cfg: Config, sent: nat -> nat -> bool, clock: nat -> nat, ghost t: Table,
                     before: seq<Slot>, earlier: seq<SendResult>, gone: seq<seq<seq<nat>>>)
      returns (out: seq<Slot>, results: seq<SendResult>, batches: seq<seq<seq<nat>>>)
      requires Valid() && n < |framesToParse|
      requires Checking(t, n, time, cfg, retransmissionSupport, sent, clock, Table(), before, earlier, gone)
      modifies framesToParse, counters
      ensures Valid()
      ensures Checking(t, n + 1, time, cfg, retransmissionSupport, sent, clock, Table(), out, results, batches)
    {
      ghost var u := Table();
      var handedOn, result, going := CheckTimeout(n, time, cfg, sent(n), clock(n));
      NextChecked(t, n, time, cfg, retransmissionSupport, sent, clock, u, before, earlier, gone, Table(), handedOn,
                  result, going);
      out, results, batches := before + handedOn, earlier[n := result], gone + [going];
    }

    /** Looks at every frame in turn. Send k of the request for frame i has the
        outcome `sent(i)(k)`; `results` are the outcomes as a whole, `batches`
        what went out for each frame. */
    method CheckTimeouts(time: nat, cfg: Config, sent: nat -> nat -> bool, clock: nat -> nat)
      returns (out: seq<Slot>, results: seq<SendResult>, batches: seq<seq<seq<nat>>>)
      requires Valid()
      modifies framesToParse, counters
      ensures Valid()
      ensures Checking(old(Table()), |framesToParse|, time, cfg, retransmissionSupport, sent, clock, Table(), out,
                       results, batches)
    {
      out, results, batches := [], seq(|framesToParse|, _ => None), [];
      ghost var t := Table();
      NothingChecked(t, time, cfg, retransmissionSupport, sent, clock, results);
      for ftpInd := 0 to |framesToParse|
        invariant Valid()
        invariant Checking(t, ftpInd, time, cfg, retransmissionSupport, sent, clock, Table(), out, results, batches)
      {
        out, results, batches := CheckNext(ftpInd, time, cfg, sent, clock, t, out, results, batches);
      }
    }

    /** The check of the first n frames of `t` has come to `u`. */
    static ghost predicate CheckedUpTo(t: Table, n: nat, now: nat, cfg: Config, support: bool, results: seq<SendResult>,
                                       u: Table, out: seq<Slot>) {
      n <= |t| == |results| && (u, out) == CheckSlots(t, n, now, cfg, support, results)
    }

    /** The check of frame i turned `t` into `u` and handed on `out`. */
    static ghost predicate SlotChecked(t: Table, i: nat, now: nat, cfg: Config, support: bool, result: SendResult,
                                       u: Table, out: seq<Slot>) {
      i < |t| && (u, out) == CheckSlot(t, i, now, cfg, support, result)
    }

    static lemma {:induction false} CheckSlotsNext(t: Table, n: nat, now: nat, cfg: Config, support: bool,
                                                   results: seq<SendResult>, u: Table, out: seq<Slot>,
                                                   result: SendResult, v: Table, more: seq<Slot>)
      requires n < |t| && CheckedUpTo(t, n, now, cfg, support, results, u, out)
      requires SlotChecked(u, n, now, cfg, support, result, v, more)
      ensures CheckedUpTo(t, n + 1, now, cfg, support, results[n := result], v, out + more)
    {
      CheckSlotsAgree(t, n, now, cfg, support, results, results[n := result]);
    }

    // ---- Steps of the thread ----

    ghost function AsState(): State
      reads *
    {
      State(Table(), retransmissionSupport)
    }

    twostate lemma NoFrameChanged()
      requires old(Valid())
      requires forall j :: 0 <= j < |framesToParse| ==>
                 unchanged(framesToParse[j]) && unchanged(framesToParse[j].frame)
                 && unchanged(framesToParse[j].packetSizes) && unchanged(framesToParse[j].packetStartAddrs)
      ensures Valid() && Table() == old(Table())
    {
      forall j | 0 <= j < |framesToParse|
        ensures framesToParse[j].View() == old(framesToParse[j].View()) && framesToParse[j].Valid()
                && framesToParse[j].Repr() == old(framesToParse[j].Repr())
      {
      }
    }

    /** Every datagram says whether the sender resends; that is noted before
        any check. */
    method NoteSupport(resendable: bool)
      requires Valid()
      modifies this`retransmissionSupport
      ensures Valid() && Table() == old(Table()) && retransmissionSupport == resendable
    {
      retransmissionSupport := resendable;
      NoFrameChanged();
    }

    /** Taking in `c` turned `t` into `u` and concerns frame i. */
    static ghost predicate TakenIn(t: Table, c: Content, u: Table, i: Option<nat>) {
      && AllWellFormed(t) && LegalContent(c) && TakeIn(t, c) == (u, i)
    }

    /** Acting on frame i turned `u` into `v` and handed on `out`. */
    static ghost predicate Followed(u: Table, i: Option<nat>, packetCounter: Option<nat>, cfg: Config, support: bool,
                                    o: Outside, v: Table, out: seq<Slot>)
    {
      if i.None? then v == u && out == []
      else
        && AllWellFormed(u) && i.value < |u| && Active(u[i.value])
        && (packetCounter.Some? ==> packetCounter.value < u[i.value].total)
        && (v, out) == AfterPacket(u, i.value, packetCounter, cfg, support, o)
    }

    /** What was requested after something was taken into frame i of `u`. */
    static ghost predicate Asks(u: Table, i: Option<nat>, packetCounter: Option<nat>, cfg: Config, support: bool,
                                beyond: nat, o: Outside, previousBatches: seq<seq<nat>>, ownBatches: seq<seq<nat>>,
                                sent: nat -> nat -> bool, clock: nat -> nat, v: Table)
    {
      if i.None? then previousBatches == [] && ownBatches == [] && o == NOTHING
      else
        && AllWellFormed(u) && i.value < |u| && Active(u[i.value])
        && (packetCounter.Some? ==> packetCounter.value < u[i.value].total)
        && PacketAsks(u, i.value, packetCounter, cfg, support, beyond, o, previousBatches, ownBatches, sent, clock, v)
    }

    static ghost predicate StepsTo(st: State, input: Input, next: State, out: seq<Slot>) {
      && AllWellFormed(st.table) && LegalEvent(input.event, |st.table|) && Step(st, input) == (next, out)
    }

    /** A step put together from what is taken in and what follows. */
    static lemma {:induction false} DataStep(st: State, cfg: Config, c: Content, u: Table, i: Option<nat>, next: State,
                                             out: seq<Slot>)
      requires c.Data? && TakenIn(st.table, c, u, i)
      requires Followed(u, i, Some(c.p.packetCounter), cfg, next.support, c.outside, next.table, out)
      ensures StepsTo(st, Input(cfg, Datagram(next.support, c)), next, out)
    {
    }

    static lemma {:induction false} NdaStep(st: State, cfg: Config, c: Content, u: Table, i: Option<nat>, next: State,
                                            out: seq<Slot>, o: Outside)
      requires c.Unavailable? && TakenIn(st.table, c, u, i)
      requires Followed(u, i, None, cfg, next.support, o, next.table, out)
      ensures StepsTo(st, Input(cfg, Datagram(next.support, c)), next, out)
    {
    }

    /** Acts on frame i, if there is one, after something was taken in. */
    method Follow(ftp: Option<nat>, packetCounter: Option<nat>, beyond: nat, cfg: Config, sent: nat -> nat -> bool,
                  clock: nat -> nat)
      returns (out: seq<Slot>, o: Outside, previousBatches: seq<seq<nat>>, ownBatches: seq<seq<nat>>)
      requires Valid() && (ftp.Some? ==> ftp.value < |framesToParse| && Active(Table()[ftp.value]))
      requires ftp.Some? && packetCounter.Some? ==> packetCounter.value < Table()[ftp.value].total
      modifies framesToParse, counters
      ensures Valid() && retransmissionSupport == old(retransmissionSupport)
      ensures Followed(old(Table()), ftp, packetCounter, cfg, retransmissionSupport, o, Table(), out)
      ensures Asks(old(Table()), ftp, packetCounter, cfg, retransmissionSupport, beyond, o, previousBatches, ownBatches,
                   sent, clock, Table())
    {
      out, o, previousBatches, ownBatches := [], NOTHING, [], [];
      if ftp.Some? {
        out, o, previousBatches, ownBatches := AfterPacketFor(ftp.value, packetCounter, beyond, cfg, sent, clock);
      }
    }

    static lemma {:induction false} DataTakenIn(t: Table, c: Content, u: Table, ftp: Option<nat>)
      requires c.Data? && LegalContent(c) && Taken(t, c.p, c.now, c.later, c.buffer, u, ftp)
      ensures TakenIn(t, c, u, ftp)
    {
    }

    /** A data packet comes in. `content` records it together with what the
        surroundings did: a new buffer's bytes and the outcomes of sends. */
    method OnData(resendable: bool, p: Packet, now: nat, later: nat, beyond: nat, cfg: Config, sent: nat -> nat -> bool,
                  clock: nat -> nat)
      returns (out: seq<Slot>, ghost content: Content, previousBatches: seq<seq<nat>>, ownBatches: seq<seq<nat>>)
      requires Valid() && Legal(p) && 0 < now <= later
      modifies this`retransmissionSupport, Footprint(), counters
      ensures Valid() && content.Data? && content.p == p && content.now == now && content.later == later
      ensures |content.buffer| == p.frameLen
      ensures StepsTo(old(AsState()), Input(cfg, Datagram(resendable, content)), AsState(), out)
      ensures AllWellFormed(old(Table())) && LegalContent(content) && retransmissionSupport == resendable
      ensures var (u, i) := TakeIn(old(Table()), content);
              Asks(u, i, Some(p.packetCounter), cfg, resendable, beyond, content.outside, previousBatches, ownBatches,
                   sent, clock, Table())
    {
      ghost var t := Table();
      NoteSupport(resendable);
      var ftp;
      ghost var buffer;
      ftp, buffer := TakeData(p, now, later);
      ghost var u := Table();
      ReceiveKeepsWellFormed(t, p, now, later, buffer);
      var o;
      out, o, previousBatches, ownBatches := Follow(ftp, Some(p.packetCounter), beyond, cfg, sent, clock);
      content := Data(p, now, later, buffer, o);
      DataTakenIn(t, content, u, ftp);
      DataStep(old(AsState()), cfg, content, u, ftp, AsState(), out);
    }

    static lemma {:induction false} NdaTakenIn(t: Table, c: Content, u: Table, ftp: Option<nat>)
      requires AllWellFormed(t) && c.Unavailable? && (u, ftp) == ReceiveNda(t, c.frameCounter, c.first, c.counters)
      ensures TakenIn(t, c, u, ftp)
      ensures ftp.Some? ==> ftp.value < |u| && Active(u[ftp.value])
    {
      TakeInKeepsWellFormed(t, c);
    }

    /** An NDA comes in. */
    method OnNda(resendable: bool, content: Content, cfg: Config, sent: nat -> nat -> bool, clock: nat -> nat)
      returns (out: seq<Slot>)
      requires Valid() && content.Unavailable?
      modifies this`retransmissionSupport, Footprint(), counters
      ensures Valid() && retransmissionSupport == resendable
      ensures StepsTo(old(AsState()), Input(cfg, Datagram(resendable, content)), AsState(), out)
    {
      ghost var t := Table();
      assert AllWellFormed(t);
      NoteSupport(resendable);
      var ftp := TakeNda(content.frameCounter, content.first, content.counters);
      ghost var u := Table();
      NdaTakenIn(t, content, u, ftp);
      var o;
      var previousBatches, ownBatches;
      out, o, previousBatches, ownBatches := Follow(ftp, None, 0, cfg, sent, clock);
      NdaStep(old(AsState()), cfg, content, u, ftp, AsState(), out, o);
    }

    /** A datagram that fails a check. */
    method OnRejected(resendable: bool, cfg: Config)
      requires Valid()
      modifies this`retransmissionSupport
      ensures Valid() && retransmissionSupport == resendable && Table() == old(Table())
      ensures StepsTo(old(AsState()), Input(cfg, Datagram(resendable, Rejected)), AsState(), [])
    {
      NoteSupport(resendable);
    }

    /** The thread looks for timeouts. */
    method OnCheck(time: nat, cfg: Config, sent: nat -> nat -> bool, clock: nat -> nat)
      returns (out: seq<Slot>, results: seq<SendResult>, batches: seq<seq<seq<nat>>>)
      requires Valid()
      modifies framesToParse, counters
      ensures Valid() && |results| == |framesToParse|
      ensures StepsTo(old(AsState()), Input(cfg, Check(time, results)), AsState(), out)
      ensures AskedUpTo(old(Table()), |framesToParse|, time, cfg, retransmissionSupport, results, batches, sent, clock)
    {
      out, results, batches := CheckTimeouts(time, cfg, sent, clock);
    }
  }
}
