/** Which packets are requested again (protocol v2): the gap before a packet
    just received, the gap at the end of the previous frame, and everything
    missing; and the batches in which the requests go out. */
module Retransmission {
  import opened FrameTable
  import Sequences
  import opened Types

  /** At most this many packet counters go into one request. */
  const BATCH_MAX: nat := 128

  // ---- Gaps ----

  /** [first, last] is a run of missing packets that cannot be extended
      downwards. */
  predicate MaximalRun(sizes: seq<nat>, first: nat, last: nat) {
    && first <= last < |sizes|
    && (forall k :: first <= k <= last ==> sizes[k] == 0)
    && (first == 0 || sizes[first - 1] != 0)
  }

  lemma {:induction false} GapStartMeans(sizes: seq<nat>, last: nat)
    requires last < |sizes| && sizes[last] == 0
    ensures MaximalRun(sizes, GapStart(sizes, last), last)
  {
    if !(last == 0 || sizes[last - 1] != 0) {
      GapStartMeans(sizes, last - 1);
    }
  }

  /** The requested gap is the maximal run of missing packets that ends just
      before the packet received, and there is none exactly when that packet's
      predecessor is not missing. */
  lemma {:induction false} OwnGapIsMaximal(sizes: seq<nat>, packetCounter: nat)
    requires packetCounter <= |sizes|
    ensures forall first: nat, last: nat ::
              OwnGap(sizes, packetCounter) == Some((first, last)) <==>
                last + 1 == packetCounter && MaximalRun(sizes, first, last)
    ensures OwnGap(sizes, packetCounter).None? <==> packetCounter == 0 || sizes[packetCounter - 1] != 0
  {
    if packetCounter > 0 && sizes[packetCounter - 1] == 0 {
      var last := packetCounter - 1;
      var g := GapStart(sizes, last);
      GapStartMeans(sizes, last);
      assert forall first: nat :: MaximalRun(sizes, first, last) ==> first == g;
    }
  }

  /** The gap at the end of the previous frame, as intended: the maximal run
      of missing packets that ends with its last packet. */
  function TailGap(previous: Slot): Option<(nat, nat)>
    requires previous.total <= |previous.sizes|
  {
    OwnGap(previous.sizes, previous.total)
  }

  /** Whether the request for the previous frame is the intended one can be
      told from the totals alone, whatever has been received and whatever
      stands beyond the table, exactly when they are equal. */
  lemma {:induction false} TotalsDecideIff(previous: Slot, total: nat)
    requires 0 < total && 0 < previous.total <= |previous.sizes|
    ensures total == previous.total <==>
            forall sizes: seq<nat>, beyond: nat :: |sizes| == |previous.sizes| ==>
              PreviousGap(previous.(sizes := sizes), total, beyond) == TailGap(previous.(sizes := sizes))
  {
    if total != previous.total {
      var sizes := Zeros(|previous.sizes|)[previous.total - 1 := 1];
      assert PreviousGap(previous.(sizes := sizes), total, 0) != TailGap(previous.(sizes := sizes));
    }
  }

  /** The lookup stays in the previous frame's table, so that what stands
      beyond it does not matter, exactly when the current frame has no more
      packets than that table has entries. */
  lemma {:induction false} LookupStaysIff(previous: Slot, total: nat)
    requires 0 < total && 0 < previous.total <= |previous.sizes|
    ensures total <= |previous.sizes| <==>
            forall a: nat, b: nat :: PreviousGap(previous, total, a) == PreviousGap(previous, total, b)
  {
    if total > |previous.sizes| {
      assert PreviousGap(previous, total, 0) != PreviousGap(previous, total, 1);
    }
  }

  // ---- What a request asks for ----

  /** The numbers of the missing packets among the first n, ascending. */
  function Wanted(sizes: seq<nat>, n: nat): seq<nat>
    requires n <= |sizes|
  {
    if n == 0 then [] else Wanted(sizes, n - 1) + if sizes[n - 1] == 0 then [n - 1] else []
  }

  function Range(first: nat, end: nat): (r: seq<nat>)
    requires first <= end
  {
    seq(end - first, i requires 0 <= i < end - first => first + i)
  }

  predicate Ascending(s: seq<nat>) {
    forall i, j :: 0 <= i < j < |s| ==> s[i] < s[j]
  }

  lemma {:induction false} WantedIsTheMissing(sizes: seq<nat>, n: nat)
    requires n <= |sizes|
    ensures Ascending(Wanted(sizes, n))
    ensures forall k: nat :: k in Wanted(sizes, n) <==> k < n && sizes[k] == 0
  {
    if n > 0 {
      WantedIsTheMissing(sizes, n - 1);
      var w := Wanted(sizes, n - 1);
      assert forall i :: 0 <= i < |w| ==> w[i] in w;
    }
  }

  lemma {:induction false} WantedPrefix(sizes: seq<nat>, m: nat, n: nat)
    requires m <= n <= |sizes|
    ensures Wanted(sizes, m) <= Wanted(sizes, n)
  {
    if m < n {
      WantedPrefix(sizes, m, n - 1);
    }
  }

  /** A gap request asks for nothing but missing packets of that gap, each once. */
  lemma {:induction false} GapIsMissing(sizes: seq<nat>, packetCounter: nat)
    requires packetCounter <= |sizes| && OwnGap(sizes, packetCounter).Some?
    ensures var (first, last) := OwnGap(sizes, packetCounter).value;
            Wanted(sizes, last + 1) == Wanted(sizes, first) + Range(first, last + 1)
  {
    OwnGapIsMaximal(sizes, packetCounter);
    var (first, last) := OwnGap(sizes, packetCounter).value;
    WantedOverRun(sizes, first, last + 1);
  }

  lemma {:induction false} WantedOverRun(sizes: seq<nat>, first: nat, end: nat)
    requires first <= end <= |sizes| && forall k :: first <= k < end ==> sizes[k] == 0
    ensures Wanted(sizes, end) == Wanted(sizes, first) + Range(first, end)
    decreases end
  {
    if first < end {
      WantedOverRun(sizes, first, end - 1);
      assert Range(first, end) == Range(first, end - 1) + [end - 1];
    }
  }

  // ---- Batches ----

  /** All batches sent so far were full and went out. */
  predicate FullBatches(batches: seq<seq<nat>>, sent: nat -> bool) {
    forall k :: 0 <= k < |batches| ==> |batches[k]| == BATCH_MAX && sent(k)
  }

  /** What went out for `wanted`, `sent(k)` being the outcome of send k: every
      batch is non-empty and of at most 128 counters, all but the last are
      full, and together they are exactly `wanted`; after a failed send nothing
      more goes out. */
  predicate Requests(wanted: seq<nat>, batches: seq<seq<nat>>, sent: nat -> bool, ok: bool) {
    && (forall k :: 0 <= k < |batches| ==> 0 < |batches[k]| <= BATCH_MAX)
    && (forall k :: 0 <= k < |batches| - 1 ==> |batches[k]| == BATCH_MAX && sent(k))
    && (if ok then Sequences.Flat(batches) == wanted && (batches != [] ==> sent(|batches| - 1))
        else Sequences.Flat(batches) <= wanted && batches != [] && !sent(|batches| - 1))
  }

  lemma {:induction false} BatchSent(batches: seq<seq<nat>>, batch: seq<nat>, wanted: seq<nat>, sent: nat -> bool)
    requires FullBatches(batches, sent) && 0 < |batch| <= BATCH_MAX && Sequences.Flat(batches) + batch <= wanted
    ensures Sequences.Flat(batches + [batch]) == Sequences.Flat(batches) + batch
    ensures !sent(|batches|) ==> Requests(wanted, batches + [batch], sent, false)
    ensures sent(|batches|) && |batch| == BATCH_MAX ==> FullBatches(batches + [batch], sent)
    ensures sent(|batches|) && Sequences.Flat(batches) + batch == wanted ==>
              Requests(wanted, batches + [batch], sent, true)
  {
    Sequences.FlatAppend(batches, batch);
  }
}
