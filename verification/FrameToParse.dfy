/** One frame under assembly as the object the parser works on: fields and
    buffers changed in place (sdk/bta_helper.c:74-148 and the parts of
    sdk/bta_eth.c that touch a single frame). Every method is proved against
    the functions on slot values in FrameTable. */
module FrameToParse {
  import opened FrameTable
  import opened Retransmission
  import Sequences
  import opened Types

  datatype Status = Ok | InvalidParameter | SendFailed

  class FrameToParse {
    var timestamp: nat
    var frameCounter: nat
    var frameSize: nat
    var frame: array<byte>
    var packetCountGot: nat
    var packetCountNda: nat
    var packetCountTotal: nat
    var packetStartAddrs: array<nat>
    var packetSizes: array<nat>
    var timeLastPacket: nat
    var retryTime: nat
    var retryCount: nat

    ghost function Repr(): set<object>
      reads this
    {
      {this, frame, packetStartAddrs, packetSizes}
    }

    /** The frame as a value. */
    function View(): Slot
      reads this, frame, packetStartAddrs, packetSizes
    {
      Slot(timestamp, frameCounter, frameSize, frame[..], packetCountGot, packetCountNda, packetCountTotal,
           packetStartAddrs[..], packetSizes[..], timeLastPacket, retryTime, retryCount)
    }

    ghost predicate Valid()
      reads this, frame, packetStartAddrs, packetSizes
    {
      && packetStartAddrs != packetSizes
      && frame as object != packetStartAddrs && frame as object != packetSizes
      && WellFormed(View())
    }

    constructor ()
      ensures Valid() && fresh(Repr()) && View() == EMPTY
    {
      timestamp, frameCounter, frameSize := 0, 0, 0;
      frame := new byte[0];
      packetCountGot, packetCountNda, packetCountTotal := 0, 0, 0;
      packetStartAddrs := new nat[0];
      packetSizes := new nat[0];
      timeLastPacket, retryTime, retryCount := 0, 0, 0;
    }

    /** Zeroes the packet tables, allocating larger ones if there are more
        packets than ever before. */
    method ClearPackets(total: nat)
      requires packetStartAddrs != packetSizes && packetStartAddrs.Length == packetSizes.Length
      modifies this`packetStartAddrs, this`packetSizes, packetStartAddrs, packetSizes
      ensures packetStartAddrs != packetSizes
      ensures packetStartAddrs == old(packetStartAddrs) || fresh(packetStartAddrs)
      ensures packetSizes == old(packetSizes) || fresh(packetSizes)
      ensures var n := if total > old(packetSizes.Length) then total else old(packetSizes.Length);
              packetStartAddrs[..] == Zeros(n) && packetSizes[..] == Zeros(n)
    {
      if total > packetSizes.Length {
        packetStartAddrs := new nat[total](_ => 0);
        packetSizes := new nat[total](_ => 0);
      } else {
        forall k | 0 <= k < packetStartAddrs.Length {
          packetStartAddrs[k] := 0;
        }
        forall k | 0 <= k < packetSizes.Length {
          packetSizes[k] := 0;
        }
      }
    }

    method GrowFrame(size: nat) returns (ghost buffer: seq<byte>)
      modifies this`frame
      ensures frame == old(frame) || fresh(frame)
      ensures |buffer| == size && frame[..] == if size > old(frame.Length) then buffer else old(frame[..])
    {
      buffer := seq(size, _ => 0);
      if size > frame.Length {
        frame := new byte[size];
        buffer := frame[..];
      }
    }

    /** Makes the slot ready for a new frame; buffers only ever grow. `buffer`
        names what a newly allocated frame buffer happens to hold. */
    method Init(now: nat, counter: nat, frameLen: nat, total: nat) returns (status: Status, ghost buffer: seq<byte>)
      requires Valid() && total < UINT16_RANGE && frameLen < UINT32_RANGE
      modifies this, packetStartAddrs, packetSizes
      ensures Valid() && |buffer| == frameLen
      ensures frame == old(frame) || fresh(frame)
      ensures packetStartAddrs == old(packetStartAddrs) || fresh(packetStartAddrs)
      ensures packetSizes == old(packetSizes) || fresh(packetSizes)
      ensures var r := FrameTable.Init(old(View()), now, counter, frameLen, total, buffer);
              if r.Some? then status == Status.Ok && View() == r.value
              else status == InvalidParameter && View() == old(View())
    {
      if frameLen == 0 || total == 0 {
        return InvalidParameter, seq(frameLen, _ => 0);
      }
      ghost var was := View();
      ClearPackets(total);
      buffer := GrowFrame(frameLen);
      timestamp, frameCounter, frameSize := now, counter, frameLen;
      packetCountGot, packetCountNda, packetCountTotal := 0, 0, total;
      timeLastPacket, retryTime, retryCount := now, now, 0;
      assert View() == FrameTable.Init(was, now, counter, frameLen, total, buffer).value;
      status := Status.Ok;
    }

    /** Copies a packet into the frame; one received before is replaced. Bytes
        beyond the end of the buffer are written elsewhere. */
    method Store(packetCounter: nat, position: nat, data: seq<byte>, now: nat)
      requires Valid() && Active(View()) && packetCounter < packetCountTotal
      modifies this`packetCountGot, this`timeLastPacket, frame, packetStartAddrs, packetSizes
      ensures Valid() && View() == FrameTable.Store(old(View()), packetCounter, position, data, now)
    {
      ghost var was := View();
      if packetSizes[packetCounter] != 0 {
        packetCountGot := (packetCountGot - 1) % UINT16_RANGE;
      }
      forall k | 0 <= k < |data| && position + k < frame.Length {
        frame[position + k] := data[k];
      }
      packetStartAddrs[packetCounter] := position;
      packetSizes[packetCounter] := |data|;
      packetCountGot := (packetCountGot + 1) % UINT16_RANGE;
      timeLastPacket := now;
      assert frame[..] == Write(was.frame, position, data);
    }

    /** Marks the listed packets as not available; the pointer into the list
        does not move past a counter that is out of range. */
    method MarkNda(counters: seq<nat>)
      requires Valid() && Active(View())
      modifies this`packetCountNda, packetSizes
      ensures Valid() && View() == FrameTable.MarkNda(old(View()), counters)
    {
      var next := 0;
      for pcInd := 0 to |counters|
        invariant next <= pcInd && Valid() && Active(View())
        invariant next < pcInd ==> counters[next] >= packetCountTotal
        invariant FrameTable.MarkNda(View(), counters[next..]) == FrameTable.MarkNda(old(View()), counters)
      {
        if counters[next] < packetCountTotal {
          packetCountNda := (packetCountNda + 1) % UINT16_RANGE;
          packetSizes[counters[next]] := NDA;
          next := next + 1;
        }
      }
    }

    /** Reads an entry without a test that there is one; `beyond` is what
        stands behind the table. */
    method ReadSize(k: nat, beyond: nat) returns (size: nat)
      ensures size == Entry(packetSizes[..], k, beyond)
    {
      size := if k < packetSizes.Length then packetSizes[k] else beyond;
    }

    /** Goes back from a missing packet to where the gap begins. */
    method GapBegin(gapEnd: nat) returns (gapBegin: nat)
      requires gapEnd < packetSizes.Length
      ensures gapBegin == GapStart(packetSizes[..], gapEnd)
    {
      gapBegin := gapEnd;
      while true
        invariant gapBegin <= gapEnd && GapStart(packetSizes[..], gapBegin) == GapStart(packetSizes[..], gapEnd)
        decreases gapBegin
      {
        if gapBegin == 0 || packetSizes[gapBegin - 1] != 0 {
          break;
        }
        gapBegin := gapBegin - 1;
      }
    }

    /** One request: the first `len` counters gathered; `batches` is what went
        out before, and send k has the outcome `sent(k)`. */
    static method SendRetrReq(counters: array<nat>, len: nat, batches: seq<seq<nat>>, sent: nat -> bool)
      returns (ok: bool, log: seq<seq<nat>>)
      requires len <= counters.Length
      ensures log == batches + [counters[..len]] && ok == sent(|batches|)
    {
      log := batches + [counters[..len]];
      ok := sent(|batches|);
    }

    static method Gather(counters: array<nat>, len: nat, packetCounter: nat) returns (more: nat)
      requires len < counters.Length
      modifies counters
      ensures more == len + 1 && counters[..more] == old(counters[..len]) + [packetCounter]
    {
      counters[len] := packetCounter;
      more := len + 1;
    }

    /** Gathers the missing packets and sends them in batches. */
    method RequestMissing(counters: array<nat>, sent: nat -> bool) returns (ok: bool, batches: seq<seq<nat>>)
      requires packetCountTotal <= packetSizes.Length && counters.Length == BATCH_MAX && counters != packetSizes
      modifies counters
      ensures Requests(Wanted(packetSizes[..], packetCountTotal), batches, sent, ok)
    {
      batches := [];
      ok := true;
      ghost var sizes := packetSizes[..];
      var len := 0;
      for pInd := 0 to packetCountTotal
        invariant len < BATCH_MAX && FullBatches(batches, sent)
        invariant Sequences.Flat(batches) + counters[..len] == Wanted(sizes, pInd)
      {
        if packetSizes[pInd] == 0 {
          len := Gather(counters, len, pInd);
          assert Sequences.Flat(batches) + counters[..len] == Wanted(sizes, pInd + 1);
          if len == BATCH_MAX {
            WantedPrefix(sizes, pInd + 1, packetCountTotal);
            BatchSent(batches, counters[..len], Wanted(sizes, packetCountTotal), sent);
            ok, batches := SendRetrReq(counters, len, batches, sent);
            if !ok {
              return;
            }
            len := 0;
          }
        }
      }
      if len > 0 {
        BatchSent(batches, counters[..len], Wanted(sizes, packetCountTotal), sent);
        ok, batches := SendRetrReq(counters, len, batches, sent);
      }
    }

    /** Requests everything missing. `counters` is the shared buffer the
        numbers are gathered in; the clock stands at `clock` when all is sent. */
    method SendRetrReqComplete(counters: array<nat>, sent: nat -> bool, clock: nat, interval: nat)
      returns (status: Status, batches: seq<seq<nat>>)
      requires Valid() && Active(View()) && counters.Length == BATCH_MAX
      requires counters as object !in Repr()
      modifies this`retryTime, counters
      ensures Valid() && status in {Status.Ok, SendFailed}
      ensures Requests(Wanted(packetSizes[..], packetCountTotal), batches, sent, status == Status.Ok)
      ensures View() == Requested(old(View()), if status == Status.Ok then Some(clock) else None, interval)
    {
      var ok;
      ok, batches := RequestMissing(counters, sent);
      if !ok {
        return SendFailed, batches;
      }
      retryTime := clock + interval;
      return Status.Ok, batches;
    }

    /** Sends the numbers from `first` up to `end` in batches. */
    static method RequestRange(counters: array<nat>, first: nat, end: nat, sent: nat -> bool)
      returns (ok: bool, batches: seq<seq<nat>>)
      requires counters.Length == BATCH_MAX && first <= end
      modifies counters
      ensures Requests(Range(first, end), batches, sent, ok)
    {
      batches := [];
      ok := true;
      var len := 0;
      for pInd := first to end
        invariant len < BATCH_MAX && FullBatches(batches, sent)
        invariant Sequences.Flat(batches) + counters[..len] == Range(first, pInd)
      {
        len := Gather(counters, len, pInd);
        assert Sequences.Flat(batches) + counters[..len] == Range(first, pInd) + [pInd] == Range(first, pInd + 1);
        if len == BATCH_MAX {
          assert Range(first, pInd + 1) <= Range(first, end);
          BatchSent(batches, counters[..len], Range(first, end), sent);
          ok, batches := SendRetrReq(counters, len, batches, sent);
          if !ok {
            return;
          }
          len := 0;
        }
      }
      if len > 0 {
        BatchSent(batches, counters[..len], Range(first, end), sent);
        ok, batches := SendRetrReq(counters, len, batches, sent);
      }
    }

    /** Requests the packets from gapBegin to gapEnd, whatever the retry time. */
    method SendRetrReqGap(counters: array<nat>, gapBegin: nat, gapEnd: nat, sent: nat -> bool, clock: nat,
                          interval: nat)
      returns (status: Status, batches: seq<seq<nat>>)
      requires Valid() && counters.Length == BATCH_MAX && gapBegin <= gapEnd < UINT16_RANGE
      requires counters as object !in Repr()
      modifies this`retryTime, counters
      ensures Valid() && (status == InvalidParameter <==> gapEnd == UINT16_RANGE - 1)
      ensures status == InvalidParameter ==> batches == []
      ensures status != InvalidParameter ==> Requests(Range(gapBegin, gapEnd + 1), batches, sent, status == Status.Ok)
      ensures View() == Requested(old(View()), if status == Status.Ok then Some(clock) else None, interval)
    {
      if gapEnd == UINT16_RANGE - 1 {
        return InvalidParameter, [];
      }
      var ok;
      ok, batches := RequestRange(counters, gapBegin, gapEnd + 1, sent);
      if !ok {
        return SendFailed, batches;
      }
      retryTime := clock + interval;
      return Status.Ok, batches;
    }
  }
}
