/** Numbers and byte strings written into and read from a buffer at a moving
    offset (common/bitconverter.c), on a little-endian host. Each method takes
    the offset and returns the one after; without one it works at the start. */
module BitConverter {
  import opened Types
  import opened FieldCodec

  function At(offset: Option<nat>): nat {
    if offset.Some? then offset.value else 0
  }

  function Moved(offset: Option<nat>, n: nat): Option<nat> {
    if offset.Some? then Some(offset.value + n) else None
  }

  /** `bytes` was written at `offset`; everything else is as it was. */
  twostate predicate Written(stream: array<byte>, offset: Option<nat>, bytes: seq<byte>, new next: Option<nat>)
    reads stream
  {
    && next == Moved(offset, |bytes|) && At(offset) + |bytes| <= stream.Length
    && stream[..At(offset) + |bytes|] == old(stream[..At(offset)]) + bytes
    && stream[At(offset) + |bytes|..] == old(stream[At(offset) + |bytes|..])
  }

  lemma {:induction false} WrittenAt(all: seq<byte>, before: seq<byte>, bytes: seq<byte>)
    requires all == before + bytes
    ensures forall k :: 0 <= k < |bytes| ==> all[|before| + k] == bytes[k]
  {
  }

  method CopyTo(bytes: seq<byte>, stream: array<byte>, offset: Option<nat>) returns (next: Option<nat>)
    requires At(offset) + |bytes| <= stream.Length
    modifies stream
    ensures Written(stream, offset, bytes, next)
  {
    forall k | 0 <= k < |bytes| {
      stream[At(offset) + k] := bytes[k];
    }
    next := Moved(offset, |bytes|);
  }

  method FromUInt08(v: nat, stream: array<byte>, offset: Option<nat>) returns (next: Option<nat>)
    requires v < 0x100 && At(offset) + 1 <= stream.Length
    modifies stream
    ensures Written(stream, offset, Bytes(1, v), next) && stream[At(offset)] == v
  {
    stream[At(offset)] := v;
    next := Moved(offset, 1);
    assert Bytes(1, v) == [v];
  }

  method FromUInt16(v: nat, stream: array<byte>, offset: Option<nat>) returns (next: Option<nat>)
    requires v < 0x1_0000 && At(offset) + 2 <= stream.Length
    modifies stream
    ensures Written(stream, offset, Bytes(2, v), next)
    ensures stream[At(offset)] == v % 0x100 && stream[At(offset) + 1] == v / 0x100
  {
    next := CopyTo(Bytes(2, v), stream, offset);
    BytesAre(v);
    WrittenAt(stream[..At(offset) + 2], old(stream[..At(offset)]), Bytes(2, v));
  }

  method FromUInt32(v: nat, stream: array<byte>, offset: Option<nat>) returns (next: Option<nat>)
    requires v < UINT32_RANGE && At(offset) + 4 <= stream.Length
    modifies stream
    ensures Written(stream, offset, Bytes(4, v), next)
    ensures stream[At(offset)] == v % 0x100 && stream[At(offset) + 1] == v / 0x100 % 0x100
    ensures stream[At(offset) + 2] == v / 0x1_0000 % 0x100 && stream[At(offset) + 3] == v / 0x100_0000
  {
    next := CopyTo(Bytes(4, v), stream, offset);
    BytesAre(v);
    WrittenAt(stream[..At(offset) + 4], old(stream[..At(offset)]), Bytes(4, v));
  }

  method FromStream(v: seq<byte>, stream: array<byte>, offset: Option<nat>) returns (next: Option<nat>)
    requires At(offset) + |v| <= stream.Length
    modifies stream
    ensures Written(stream, offset, v, next)
  {
    next := CopyTo(v, stream, offset);
  }

  method ToUInt08(stream: array<byte>, offset: Option<nat>) returns (v: nat, next: Option<nat>)
    requires At(offset) + 1 <= stream.Length
    ensures next == Moved(offset, 1) && v < 0x100 && stream[At(offset)..At(offset) + 1] == Bytes(1, v)
    ensures v == stream[At(offset)]
  {
    v := stream[At(offset)];
    next := Moved(offset, 1);
    assert Bytes(1, v) == [v];
  }

  method ToUInt16(stream: array<byte>, offset: Option<nat>) returns (v: nat, next: Option<nat>)
    requires At(offset) + 2 <= stream.Length
    ensures next == Moved(offset, 2) && v < 0x1_0000 && stream[At(offset)..At(offset) + 2] == Bytes(2, v)
    ensures v == stream[At(offset)] + 0x100 * (stream[At(offset) + 1] as nat)
  {
    next := Moved(offset, 2);
    v := Value(stream[At(offset)..At(offset) + 2]);
    BytesOfValue(stream[At(offset)..At(offset) + 2]);
    ValueIs(stream[At(offset)..At(offset) + 2]);
  }

  method ToUInt32(stream: array<byte>, offset: Option<nat>) returns (v: nat, next: Option<nat>)
    requires At(offset) + 4 <= stream.Length
    ensures next == Moved(offset, 4) && v < UINT32_RANGE && stream[At(offset)..At(offset) + 4] == Bytes(4, v)
    ensures v == stream[At(offset)] + 0x100 * (stream[At(offset) + 1] as nat)
                 + 0x1_0000 * (stream[At(offset) + 2] as nat) + 0x100_0000 * (stream[At(offset) + 3] as nat)
  {
    next := Moved(offset, 4);
    v := Value(stream[At(offset)..At(offset) + 4]);
    BytesOfValue(stream[At(offset)..At(offset) + 4]);
    ValueIs(stream[At(offset)..At(offset) + 4]);
  }

  method ToStream(stream: array<byte>, offset: Option<nat>, n: nat) returns (v: seq<byte>, next: Option<nat>)
    requires At(offset) + n <= stream.Length
    ensures next == Moved(offset, n) && v == stream[At(offset)..At(offset) + n]
  {
    next := Moved(offset, n);
    v := stream[At(offset)..At(offset) + n];
  }

  /** Every byte string is the representation of the number it is read as. */
  lemma {:induction false} BytesOfValue(b: seq<byte>)
    ensures Bytes(|b|, Value(b)) == b
    ensures |b| <= 4 ==> Value(b) < Limit(|b|)
  {
    if b != [] {
      BytesOfValue(b[1..]);
      assert Value(b) % 0x100 == b[0] && Value(b) / 0x100 == Value(b[1..]);
    }
  }

  /** A number has one representation: what was written reads back the same. */
  lemma {:induction false} BytesInjective(width: nat, v: nat, w: nat)
    requires v < Limit(width) && w < Limit(width) && Bytes(width, v) == Bytes(width, w)
    ensures v == w
  {
    ValueOfBytes(width, v);
    ValueOfBytes(width, w);
  }

  /** What a From method writes a To method reads back. */
  method RoundTrip32(v: nat, stream: array<byte>, offset: Option<nat>) returns (w: nat)
    requires v < UINT32_RANGE && At(offset) + 4 <= stream.Length
    modifies stream
    ensures w == v
  {
    var next := FromUInt32(v, stream, offset);
    ghost var written := stream[..At(offset) + 4];
    assert stream[At(offset)..At(offset) + 4] == written[At(offset)..];
    w, next := ToUInt32(stream, offset);
    BytesInjective(4, v, w);
  }
}
