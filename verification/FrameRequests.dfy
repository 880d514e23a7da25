/** What the parser requests (protocol v2): after a packet the gap before it
    and the one at the end of the previous frame, after a timeout everything
    missing; said of the batches that go out and of the outcomes of the sends. */
module FrameRequests {
  import FrameRetry
  import opened FrameTable
  import Sequences
  import opened Retransmission
  import opened Types

  /** A request for these numbers went out, with this result: the clock, if
      every batch was sent. */
  predicate Asked(wanted: seq<nat>, batches: seq<seq<nat>>, sent: nat -> bool, clock: nat, result: SendResult) {
    Requests(wanted, batches, sent, result.Some?) && (result.Some? ==> result.value == clock)
  }

  predicate NotAsked(batches: seq<seq<nat>>, result: SendResult) {
    batches == [] && result == None
  }

  /** If all sends succeed, everything wanted has been asked for. */
  lemma {:induction false} AllSent(wanted: seq<nat>, batches: seq<seq<nat>>, sent: nat -> bool, clock: nat,
                                   result: SendResult)
    requires Asked(wanted, batches, sent, clock, result) && forall k: nat :: sent(k)
    ensures result == Some(clock) && Sequences.Flat(batches) == wanted
  {
  }

  // ---- After a packet ----

  /** From `first` to `last`, all before `last` missing, and no further down. */
  predicate RunBack(sizes: seq<nat>, first: nat, last: nat) {
    && first <= last < |sizes|
    && (forall k :: first <= k < last ==> sizes[k] == 0)
    && (first == 0 || sizes[first - 1] != 0)
  }

  /** The run of missing packets just before packet c was asked for; nothing
      was if the packet before is not missing. */
  ghost predicate OwnGapAsked(sizes: seq<nat>, c: nat, batches: seq<seq<nat>>, sent: nat -> bool, clock: nat,
                              result: SendResult)
    requires c <= |sizes|
  {
    if c > 0 && sizes[c - 1] == 0 then
      forall first: nat :: MaximalRun(sizes, first, c - 1) ==> Asked(Range(first, c), batches, sent, clock, result)
    else NotAsked(batches, result)
  }

  /** If all packets of frame i before c are missing and there is a previous
      frame whose entry for the last packet number of frame i is 0, the end of
      that frame was asked for, back to a packet that is not missing; otherwise
      nothing was. */
  ghost predicate PreviousGapAsked(t: Table, i: nat, c: nat, beyond: nat, batches: seq<seq<nat>>, sent: nat -> bool,
                                   clock: nat, result: SendResult)
    requires AllWellFormed(t) && i < |t| && Active(t[i]) && c < t[i].total
  {
    var previous := NewestBefore(t, t[i].timestamp, |t|);
    if (forall k :: 0 <= k < c ==> t[i].sizes[k] == 0) && previous.Some?
       && Entry(t[previous.value].sizes, t[i].total - 1, beyond) == 0
    then
      var s := t[previous.value];
      forall first: nat :: RunBack(s.sizes, first, s.total - 1) ==>
        Asked(Range(first, s.total), batches, sent, clock, result)
    else NotAsked(batches, result)
  }

  /** The two frames may be asked for again only after the interval; nothing
      else changes. */
  predicate RetryTimesSet(t: Table, i: nat, interval: nat, o: Outside, v: Table)
    requires i < |t|
  {
    && |v| == |t|
    && forall k :: 0 <= k < |t| ==>
         v[k] == t[k].(retryTime :=
                         if k == i then if o.sentOwn.Some? then o.sentOwn.value + interval else t[k].retryTime
                         else if Some(k) == NewestBefore(t, t[i].timestamp, |t|) && o.sentPrevious.Some?
                         then o.sentPrevious.value + interval
                         else t[k].retryTime)
  }

  /** What packet c of frame i sets off while its frame is not complete. */
  ghost predicate GapsAsked(t: Table, i: nat, c: nat, interval: nat, beyond: nat, o: Outside,
                            previousBatches: seq<seq<nat>>, ownBatches: seq<seq<nat>>, sent: nat -> nat -> bool,
                            clock: nat -> nat, v: Table)
    requires AllWellFormed(t) && i < |t| && Active(t[i]) && c < t[i].total
  {
    && o.beyond == beyond
    && PreviousGapAsked(t, i, c, beyond, previousBatches, sent(0), clock(0), o.sentPrevious)
    && OwnGapAsked(t[i].sizes, c, ownBatches, sent(1), clock(1), o.sentOwn)
    && RetryTimesSet(t, i, interval, o, v)
  }

  /** Requests go out only with the retransmission mode on, to a sender that
      resends, and for a packet whose frame is not complete. */
  ghost predicate PacketAsks(t: Table, i: nat, packetCounter: Option<nat>, cfg: Config, support: bool, beyond: nat,
                             o: Outside, previousBatches: seq<seq<nat>>, ownBatches: seq<seq<nat>>,
                             sent: nat -> nat -> bool, clock: nat -> nat, v: Table)
    requires AllWellFormed(t) && i < |t| && Active(t[i])
    requires packetCounter.Some? ==> packetCounter.value < t[i].total
  {
    if cfg.mode == 1 && support && packetCounter.Some? && t[i].got + t[i].nda != t[i].total then
      GapsAsked(t, i, packetCounter.value, cfg.interval, beyond, o, previousBatches, ownBatches, sent, clock, v)
    else previousBatches == [] && ownBatches == [] && o == NOTHING
  }

  lemma {:induction false} GapStartIsBack(sizes: seq<nat>, last: nat)
    requires last < |sizes|
    ensures RunBack(sizes, GapStart(sizes, last), last)
    ensures forall first: nat :: RunBack(sizes, first, last) ==> first == GapStart(sizes, last)
  {
    if !(last == 0 || sizes[last - 1] != 0) {
      GapStartIsBack(sizes, last - 1);
      forall first: nat | RunBack(sizes, first, last) ensures first == GapStart(sizes, last) {
        assert RunBack(sizes, first, last - 1);
      }
    }
  }

  lemma {:induction false} OwnIsAsked(sizes: seq<nat>, c: nat, batches: seq<seq<nat>>, sent: nat -> bool, clock: nat,
                                      result: SendResult)
    requires c <= |sizes|
    requires var gap := OwnGap(sizes, c);
             if gap.Some? then Asked(Range(gap.value.0, gap.value.1 + 1), batches, sent, clock, result)
             else NotAsked(batches, result)
    ensures OwnGapAsked(sizes, c, batches, sent, clock, result)
  {
    OwnGapIsMaximal(sizes, c);
    if c > 0 && sizes[c - 1] == 0 {
      forall first: nat | MaximalRun(sizes, first, c - 1)
        ensures Asked(Range(first, c), batches, sent, clock, result)
      {
        assert OwnGap(sizes, c) == Some((first, c - 1));
      }
    }
  }

  /** All before c missing, and only then, the look goes back. */
  lemma {:induction false} LooksBackMeans(sizes: seq<nat>, c: nat)
    requires c <= |sizes|
    ensures LooksBack(sizes, c) <==> forall k :: 0 <= k < c ==> sizes[k] == 0
  {
    if c > 0 && sizes[c - 1] == 0 {
      GapStartIsBack(sizes, c - 1);
      var first := GapStart(sizes, c - 1);
      assert first > 0 ==> sizes[first - 1] != 0;
      assert OwnGap(sizes, c) == Some((first, c - 1));
    }
  }

  lemma {:induction false} PreviousIsAsked(t: Table, i: nat, c: nat, beyond: nat, batches: seq<seq<nat>>,
                                           sent: nat -> bool, clock: nat, result: SendResult)
    requires AllWellFormed(t) && i < |t| && Active(t[i]) && c < t[i].total
    requires var previous := NewestBefore(t, t[i].timestamp, |t|);
             if LooksBack(t[i].sizes, c) && previous.Some?
                && PreviousGap(t[previous.value], t[i].total, beyond).Some?
             then
               var gap := PreviousGap(t[previous.value], t[i].total, beyond).value;
               Asked(Range(gap.0, gap.1 + 1), batches, sent, clock, result)
             else NotAsked(batches, result)
    ensures PreviousGapAsked(t, i, c, beyond, batches, sent, clock, result)
  {
    LooksBackMeans(t[i].sizes, c);
    var previous := NewestBefore(t, t[i].timestamp, |t|);
    if LooksBack(t[i].sizes, c) && previous.Some? && PreviousGap(t[previous.value], t[i].total, beyond).Some? {
      GapStartIsBack(t[previous.value].sizes, t[previous.value].total - 1);
    }
  }

  lemma {:induction false} RetryTimesAreSet(t: Table, i: nat, c: nat, interval: nat, beyond: nat, o: Outside,
                                            previousBatches: seq<seq<nat>>, ownBatches: seq<seq<nat>>,
                                            sent: nat -> nat -> bool, clock: nat -> nat)
    requires AllWellFormed(t) && i < |t| && Active(t[i]) && c < t[i].total && o.beyond == beyond
    requires PreviousGapAsked(t, i, c, beyond, previousBatches, sent(0), clock(0), o.sentPrevious)
    requires OwnGapAsked(t[i].sizes, c, ownBatches, sent(1), clock(1), o.sentOwn)
    ensures GapsAsked(t, i, c, interval, beyond, o, previousBatches, ownBatches, sent, clock,
                      RequestGaps(t, i, c, interval, o))
  {
    LooksBackMeans(t[i].sizes, c);
  }

  /** If all sends succeed, exactly the missing packets just before packet c
      have been asked for, and the frame's retry time is an interval away. */
  lemma {:induction false} GapIsAskedFor(t: Table, i: nat, c: nat, first: nat, interval: nat, beyond: nat, o: Outside,
                                         previousBatches: seq<seq<nat>>, ownBatches: seq<seq<nat>>,
                                         sent: nat -> nat -> bool, clock: nat -> nat, v: Table)
    requires AllWellFormed(t) && i < |t| && Active(t[i]) && 0 < c < t[i].total
    requires GapsAsked(t, i, c, interval, beyond, o, previousBatches, ownBatches, sent, clock, v)
    requires MaximalRun(t[i].sizes, first, c - 1) && forall k: nat :: sent(1)(k)
    ensures Sequences.Flat(ownBatches) == Range(first, c)
    ensures |v| == |t| && v[i] == t[i].(retryTime := clock(1) + interval)
  {
    AllSent(Range(first, c), ownBatches, sent(1), clock(1), o.sentOwn);
  }

  // ---- After a timeout ----

  /** A frame that has waited too long, of a sender that resends, whose retry
      time has come and whose retries are not used up: everything missing of it
      is asked for. Otherwise nothing is. */
  predicate CheckAsks(s: Slot, time: nat, cfg: Config, support: bool, batches: seq<seq<nat>>, sent: nat -> bool,
                      clock: nat, result: SendResult)
  {
    if Due(s, time, cfg) && support then
      s.total <= |s.sizes| && Asked(Wanted(s.sizes, s.total), batches, sent, clock, result)
    else NotAsked(batches, result)
  }

  predicate Due(s: Slot, time: nat, cfg: Config) {
    && s.timestamp != 0 && time as real > s.timeLast as real + cfg.waitTimeout
    && time >= s.retryTime && (s.retryCount as real) < cfg.maxAttempts
  }

  /** What frame k is when its turn comes: those before it have had theirs. */
  function AtTurn(t: Table, k: nat, time: nat, cfg: Config, support: bool, results: seq<SendResult>): Slot
    requires k < |t| == |results|
  {
    CheckSlots(t, k, time, cfg, support, results).0[k]
  }

  /** What was asked for when frame k had its turn. */
  predicate AskedAt(t: Table, k: nat, time: nat, cfg: Config, support: bool, results: seq<SendResult>,
                    batches: seq<seq<seq<nat>>>, sent: nat -> nat -> bool, clock: nat -> nat)
    requires k < |t| == |results| && k < |batches|
  {
    CheckAsks(AtTurn(t, k, time, cfg, support, results), time, cfg, support, batches[k], sent(k), clock(k), results[k])
  }

  /** So it is for the first n frames. */
  predicate AskedUpTo(t: Table, n: nat, time: nat, cfg: Config, support: bool, results: seq<SendResult>,
                      batches: seq<seq<seq<nat>>>, sent: nat -> nat -> bool, clock: nat -> nat)
  {
    && |batches| == n <= |t| == |results|
    && forall k :: 0 <= k < n ==> AskedAt(t, k, time, cfg, support, results, batches, sent, clock)
  }

  lemma {:induction false} CheckSlotsAgree(t: Table, n: nat, now: nat, cfg: Config, support: bool,
                                           a: seq<SendResult>, b: seq<SendResult>)
    requires n <= |t| == |a| == |b| && forall i :: 0 <= i < n ==> a[i] == b[i]
    ensures CheckSlots(t, n, now, cfg, support, a) == CheckSlots(t, n, now, cfg, support, b)
  {
    if n > 0 {
      CheckSlotsAgree(t, n - 1, now, cfg, support, a, b);
    }
  }

  lemma {:induction false} AskedNext(t: Table, n: nat, time: nat, cfg: Config, support: bool, results: seq<SendResult>,
                                     batches: seq<seq<seq<nat>>>, sent: nat -> nat -> bool, clock: nat -> nat,
                                     result: SendResult, more: seq<seq<nat>>)
    requires AskedUpTo(t, n, time, cfg, support, results, batches, sent, clock) && n < |t|
    requires CheckAsks(AtTurn(t, n, time, cfg, support, results), time, cfg, support, more, sent(n), clock(n), result)
    ensures AskedUpTo(t, n + 1, time, cfg, support, results[n := result], batches + [more], sent, clock)
  {
    var results', batches' := results[n := result], batches + [more];
    forall k | 0 <= k <= n ensures AskedAt(t, k, time, cfg, support, results', batches', sent, clock) {
      CheckSlotsAgree(t, k, time, cfg, support, results, results');
      assert k < n ==> AskedAt(t, k, time, cfg, support, results, batches, sent, clock);
    }
  }

  /** After its own turn a frame is only ever taken out. */
  lemma {:induction false} LaterTurns(t: Table, k: nat, n: nat, time: nat, cfg: Config, support: bool,
                                      results: seq<SendResult>)
    requires k < n <= |t| == |results|
    ensures var own, end := CheckSlots(t, k + 1, time, cfg, support, results).0[k],
                            CheckSlots(t, n, time, cfg, support, results).0[k];
            end == own || end == Retire(own)
    decreases n
  {
    if n > k + 1 {
      LaterTurns(t, k, n - 1, time, cfg, support, results);
      var u := CheckSlots(t, n - 1, time, cfg, support, results).0;
      FrameRetry.CheckSlotActs(u, n - 1, time, cfg, support, results[n - 1]);
    }
  }

  /** If all sends succeed, everything missing of a frame whose retry is due has
      been asked for, and this counts as one retry. */
  lemma {:induction false} DueIsCounted(t: Table, k: nat, time: nat, cfg: Config, results: seq<SendResult>,
                                        batches: seq<seq<seq<nat>>>, sent: nat -> nat -> bool, clock: nat -> nat)
    requires AskedUpTo(t, |t|, time, cfg, true, results, batches, sent, clock) && k < |t|
    requires Due(AtTurn(t, k, time, cfg, true, results), time, cfg) && forall n: nat :: sent(k)(n)
    ensures var s, end := AtTurn(t, k, time, cfg, true, results), CheckSlots(t, |t|, time, cfg, true, results).0[k];
            && s.total <= |s.sizes| && Sequences.Flat(batches[k]) == Wanted(s.sizes, s.total)
            && results[k] == Some(clock(k)) && end.retryTime == clock(k) + cfg.interval
            && end.retryCount == (s.retryCount + 1) % UINT16_RANGE
  {
    var s := AtTurn(t, k, time, cfg, true, results);
    assert AskedAt(t, k, time, cfg, true, results, batches, sent, clock);
    AllSent(Wanted(s.sizes, s.total), batches[k], sent(k), clock(k), results[k]);
    LaterTurns(t, k, |t|, time, cfg, true, results);
  }
}
