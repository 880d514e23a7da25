/** The protocol v1 part of parseFramesRunFunction (sdk/bta_eth.c:1962-2129)
    in its own form: packet arrays emptied, filled and replaced in place,
    proved against the functions of LegacyFrames. */
module LegacyParser {
  import opened Types
  import opened LegacyFrames

  /** One of the three arrays, with its frame counter and byte count. */
  class PacketLane {
    var frameCounter: int
    var frameBytesReceived: nat
    var framePackets: array<Option<Packet>>

    ghost function View(): Lane
      reads this, framePackets
    {
      Lane(frameCounter, frameBytesReceived, framePackets[..])
    }

    constructor (len: nat)
      ensures View() == Lane(-1, 0, Empty(len)) && fresh(framePackets)
    {
      frameCounter, frameBytesReceived := -1, 0;
      framePackets := new Option<Packet>[len](_ => None);
      new;
      assert framePackets[..] == Empty(len);
    }

    /** A new, empty array; the counts stay. */
    method Reallocate(n: nat)
      modifies this`framePackets
      ensures fresh(framePackets) && View() == old(View()).(cells := Empty(n))
    {
      framePackets := new Option<Packet>[n](_ => None);
      assert framePackets[..] == Empty(n);
    }

    /** Gives up the packets of the array and starts on a new frame. */
    method Evict(counter: nat) returns (freed: seq<Packet>)
      modifies this`frameCounter, this`frameBytesReceived, framePackets
      ensures View() == Lane(counter, 0, Empty(framePackets.Length))
      ensures freed == Held(old(framePackets[..]))
    {
      frameCounter, frameBytesReceived := counter, 0;
      freed := [];
      ghost var was := framePackets[..];
      for i := 0 to framePackets.Length
        modifies framePackets
        invariant freed == Held(was[..i])
        invariant forall k :: 0 <= k < framePackets.Length ==> framePackets[k] == if k < i then None else was[k]
      {
        assert was[..i + 1][..i] == was[..i];
        if framePackets[i].Some? {
          freed := freed + [framePackets[i].value];
          framePackets[i] := None;
        }
      }
      assert was[..framePackets.Length] == was;
      assert framePackets[..] == Empty(framePackets.Length);
    }

    /** Puts a packet in its place; one already there is given back. */
    method Store(k: nat, packet: Packet) returns (freed: seq<Packet>)
      requires k < framePackets.Length
      modifies this`frameBytesReceived, framePackets
      ensures (View(), freed) == LegacyFrames.Store(old(View()), k, packet)
    {
      freed := [];
      if framePackets[k].Some? {
        freed := [framePackets[k].value];
        framePackets[k] := None;
        frameBytesReceived := (frameBytesReceived - |packet.payload|) % UINT32_RANGE;
      }
      framePackets[k] := Some(packet);
      frameBytesReceived := (frameBytesReceived + |packet.payload|) % UINT32_RANGE;
      assert framePackets[..] == old(framePackets[..])[k := Some(packet)];
    }

    /** Puts the frame together, giving the packets back as they are copied;
        there is a frame only if its length came out right. */
    method Complete(totalLength: nat) returns (freed: seq<Packet>, frame: Option<seq<byte>>)
      modifies framePackets
      ensures var (cells, copied, bytes) := Copy(old(framePackets[..]), 0, totalLength, []);
              && framePackets[..] == cells && freed == copied
              && frame == if |bytes| == totalLength then Some(bytes) else None
    {
      var completeFrame := new byte[totalLength];
      var offset := 0;
      freed := [];
      ghost var was := framePackets[..];
      ghost var done := [];
      var i := 0;
      assert CopiedTo(was, was, 0, totalLength, [], []) by {
        assert [] + Copy(was, 0, totalLength, []).1 == Copy(was, 0, totalLength, []).1;
      }
      while i < framePackets.Length
        invariant 0 <= i <= framePackets.Length && 0 <= offset <= totalLength && completeFrame[..offset] == done
        invariant CopiedTo(was, framePackets[..], i, totalLength, done, freed)
      {
        ghost var cells := framePackets[..];
        if framePackets[i].Some? {
          var payload := framePackets[i].value.payload;
          CopyNext(was, cells, i, totalLength, done, freed);
          if offset + |payload| <= totalLength {
            forall k | 0 <= k < |payload| {
              completeFrame[offset + k] := payload[k];
            }
            assert completeFrame[..offset + |payload|] == done + payload;
            done := done + payload;
            offset := offset + |payload|;
          }
          freed := freed + [framePackets[i].value];
          framePackets[i] := None;
          assert framePackets[..] == cells[i := None];
          if offset == totalLength {
            break;
          }
        }
        i := i + 1;
      }
      assert freed + [] == freed;
      assert Copy(was, 0, totalLength, []) == (framePackets[..], freed, done);
      assert offset == totalLength ==> completeFrame[..] == completeFrame[..offset];
      frame := if offset == totalLength then Some(completeFrame[..]) else None;
    }
  }

  /** Copying `was` has come to index i. */
  ghost predicate CopiedTo(was: Cells, cells: Cells, i: nat, total: nat, done: seq<byte>, freed: seq<Packet>) {
    i <= |cells|
      && Copy(was, 0, total, []) ==
        (Copy(cells, i, total, done).0, freed + Copy(cells, i, total, done).1, Copy(cells, i, total, done).2)
  }

  lemma {:induction false} CopyNext(was: Cells, cells: Cells, i: nat, total: nat, done: seq<byte>, freed: seq<Packet>)
    requires i < |cells| && cells[i].Some? && CopiedTo(was, cells, i, total, done, freed)
    ensures var p := cells[i].value;
            var more := if |done| + |p.payload| <= total then done + p.payload else done;
            if |more| == total then Copy(was, 0, total, []) == (cells[i := None], freed + [p], more)
            else CopiedTo(was, cells[i := None], i + 1, total, more, freed + [p])
  {
    var p := cells[i].value;
    var more := if |done| + |p.payload| <= total then done + p.payload else done;
    if |more| != total {
      var rest := Copy(cells[i := None], i + 1, total, more).1;
      assert freed + ([p] + rest) == freed + [p] + rest;
    }
  }

  /** The three arrays of the parser thread. */
  class LegacyParser {
    var framePacketsLen: nat
    const lanes: seq<PacketLane>

    ghost predicate Ready()
      reads *
    {
      && |lanes| == 3
      && (forall i, j :: 0 <= i < j < 3 ==> lanes[i] != lanes[j] && lanes[i].framePackets != lanes[j].framePackets)
      && framePacketsLen < UINT16_RANGE
      && (forall i :: 0 <= i < 3 ==>
        lanes[i].framePackets.Length == framePacketsLen && lanes[i].frameBytesReceived < UINT32_RANGE)
    }

    ghost function View(): (st: State)
      requires |lanes| == 3
      reads *
      ensures |st.lanes| == 3 && st.len == framePacketsLen && forall i :: 0 <= i < 3 ==> st.lanes[i] == lanes[i].View()
      ensures Ready() ==> Valid(st)
    {
      State([lanes[0].View(), lanes[1].View(), lanes[2].View()], framePacketsLen)
    }

    constructor ()
      ensures Ready() && View() == Start()
    {
      var a := new PacketLane(512);
      var b := new PacketLane(512);
      var c := new PacketLane(512);
      framePacketsLen := 512;
      lanes := [a, b, c];
    }

    ghost function Arrays(): set<object>
      reads *
    {
      set i | 0 <= i < |lanes| :: lanes[i].framePackets
    }

    /** Changing one array changes one lane of the state. */
    twostate lemma OneLaneChanged(k: nat)
      requires old(Ready()) && k < 3 && framePacketsLen == old(framePacketsLen)
      requires lanes[k].framePackets == old(lanes[k].framePackets) && lanes[k].frameBytesReceived < UINT32_RANGE
      requires forall j :: 0 <= j < 3 && j != k ==> unchanged(lanes[j]) && unchanged(lanes[j].framePackets)
      ensures Ready() && View() == old(View()).(lanes := old(View()).lanes[k := lanes[k].View()])
    {
      forall j | 0 <= j < 3 && j != k ensures lanes[j].View() == old(lanes[j].View()) {
      }
      assert View().lanes == old(View()).lanes[k := lanes[k].View()];
    }

    method EvictLane(k: nat, frameCounter: nat) returns (freed: seq<Packet>)
      requires Ready() && k < 3
      modifies lanes[k], lanes[k].framePackets
      ensures Ready() && Arrays() == old(Arrays())
      ensures View() == old(View()).(lanes := old(View()).lanes[k := Lane(frameCounter, 0, Empty(framePacketsLen))])
      ensures freed == Held(old(View()).lanes[k].cells)
    {
      freed := lanes[k].Evict(frameCounter);
      OneLaneChanged(k);
    }

    /** The array for a frame; a frame not seen before takes over the one
        whose counter is farthest away. */
    method ClaimLane(frameCounter: nat) returns (k: nat, freed: seq<Packet>)
      requires Ready()
      modifies lanes, Arrays()
      ensures Ready() && k < 3 && Arrays() == old(Arrays())
      ensures (View(), k, freed) == Claim(old(View()), frameCounter)
    {
      var a, b, c := lanes[0], lanes[1], lanes[2];
      freed := [];
      if frameCounter != a.frameCounter && frameCounter != b.frameCounter && frameCounter != c.frameCounter {
        var da := Distance(a.frameCounter, frameCounter);
        var db := Distance(b.frameCounter, frameCounter);
        var dc := Distance(c.frameCounter, frameCounter);
        if da >= db && da >= dc {
          k := 0;
        } else if db >= da && db >= dc {
          k := 1;
        } else {
          k := 2;
        }
        freed := EvictLane(k, frameCounter);
      } else if frameCounter == a.frameCounter {
        k := 0;
      } else if frameCounter == b.frameCounter {
        k := 1;
      } else {
        k := 2;
      }
    }

    method DepositInLane(k: nat, d: Datagram) returns (freed: seq<Packet>, frame: Option<(nat, seq<byte>)>)
      requires Ready() && k < 3 && d.packetCounter < framePacketsLen && Legal(d)
      modifies lanes[k], lanes[k].framePackets
      ensures Ready() && Result(View(), freed, frame) == Deposit(old(View()), k, d)
    {
      ghost var was := View();
      freed := lanes[k].Store(d.packetCounter, d.packet);
      frame := None;
      if lanes[k].frameBytesReceived == d.totalLength {
        var copied, bytes := lanes[k].Complete(d.totalLength);
        freed := freed + copied;
        if bytes.Some? {
          frame := Some((d.frameCounter, bytes.value));
        }
      }
      OneLaneChanged(k);
    }

    /** The packets of all three arrays, cell by cell. */
    static method DropAll(a: array<Option<Packet>>, b: array<Option<Packet>>, c: array<Option<Packet>>)
      returns (freed: seq<Packet>)
      requires a.Length == b.Length == c.Length
      ensures freed == Interleaved(a[..], b[..], c[..])
    {
      freed := [];
      for i := 0 to a.Length
        invariant freed == Interleaved(a[..i], b[..i], c[..i])
      {
        InterleavedNext(a[..], b[..], c[..], i);
        GroupThree(freed, One(a[i]), One(b[i]), One(c[i]));
        freed := freed + One(a[i]);
        freed := freed + One(b[i]);
        freed := freed + One(c[i]);
      }
      assert a[..a.Length] == a[..] && b[..a.Length] == b[..] && c[..a.Length] == c[..];
    }

    static lemma {:induction false} InterleavedNext(a: Cells, b: Cells, c: Cells, i: nat)
      requires i < |a| == |b| == |c|
      ensures Interleaved(a[..i + 1], b[..i + 1], c[..i + 1]) ==
              Interleaved(a[..i], b[..i], c[..i]) + (One(a[i]) + One(b[i]) + One(c[i]))
    {
      assert a[..i + 1][..i] == a[..i] && b[..i + 1][..i] == b[..i] && c[..i + 1][..i] == c[..i];
    }

    static lemma {:induction false} GroupThree(freed: seq<Packet>, x: seq<Packet>, y: seq<Packet>, z: seq<Packet>)
      ensures freed + x + y + z == freed + (x + y + z)
    {
    }

    /** New, empty arrays of length n. */
    method Allocate(n: nat)
      requires |lanes| == 3 && n < UINT16_RANGE
      requires forall i, j :: 0 <= i < j < 3 ==> lanes[i] != lanes[j]
      requires forall i :: 0 <= i < 3 ==> lanes[i].frameBytesReceived < UINT32_RANGE
      modifies this`framePacketsLen, lanes
      ensures Ready() && framePacketsLen == n
      ensures forall k :: 0 <= k < 3 ==> View().lanes[k] == old(View()).lanes[k].(cells := Empty(n))
    {
      framePacketsLen := n;
      lanes[0].Reallocate(n);
      lanes[1].Reallocate(n);
      lanes[2].Reallocate(n);
    }

    /** Drops everything and goes on with arrays of twice the length. */
    method Regrow() returns (freed: seq<Packet>)
      requires Ready()
      modifies this`framePacketsLen, lanes
      ensures Ready() && View() == Regrown(old(View()))
      ensures freed == Interleaved(old(View()).lanes[0].cells, old(View()).lanes[1].cells, old(View()).lanes[2].cells)
    {
      freed := DropAll(lanes[0].framePackets, lanes[1].framePackets, lanes[2].framePackets);
      Allocate((framePacketsLen * 2) % UINT16_RANGE);
    }

    /** A datagram of protocol v1: the packets given back, and the frame
        handed on, if any. */
    method Handle(d: Datagram) returns (freed: seq<Packet>, frame: Option<(nat, seq<byte>)>)
      requires Ready() && Legal(d)
      modifies this`framePacketsLen, lanes, Arrays()
      ensures Ready() && Result(View(), freed, frame) == Step(old(View()), d)
    {
      var k, evicted := ClaimLane(d.frameCounter);
      frame := None;
      if d.packetCounter >= framePacketsLen {
        var dropped := Regrow();
        freed := evicted + (dropped + [d.packet]);
      } else {
        var given;
        given, frame := DepositInLane(k, d);
        freed := evicted + given;
      }
    }
  }
}
