/** The reader accepts nothing but what the writer writes: whatever it reads as
    a frame is that frame's serialized form, so that no cut-off input is taken
    for a frame. */
module FrameReadExact {
  import opened FieldCodec
  import opened FrameFormat
  import opened FrameRoundTrip
  import opened Types
  import BitConverter

  predicate Plain(widths: seq<nat>) {
    forall k :: 0 <= k < |widths| ==> widths[k] <= 4
  }

  /** The last of the numbers read, and those before it. */
  lemma {:induction false} DecodeLast(fields: seq<Field>, b: seq<byte>)
    requires fields != [] && Total(Widths(fields)) <= |b| && Values(fields) == Decode(Widths(fields), b)
    ensures var n := |fields| - 1;
            var at, end := Total(Widths(fields[..n])), Total(Widths(fields));
            && at <= end && end == at + fields[n].width && fields[n].value == Value(b[at..end])
            && Values(fields[..n]) == Decode(Widths(fields[..n]), b)
  {
    var n := |fields| - 1;
    assert Widths(fields)[..n] == Widths(fields[..n]);
    assert Values(fields)[..n] == Values(fields[..n]);
    assert fields[n].value == Values(fields)[n];
  }

  lemma {:induction false} LastBytes(b: seq<byte>, at: nat, end: nat, width: nat, v: nat)
    requires at <= end <= |b| && end == at + width && width <= 4 && v == Value(b[at..end])
    ensures v < Limit(width) && b[at..] == Bytes(width, v) + b[end..]
  {
    BitConverter.BytesOfValue(b[at..end]);
    assert b[at..] == b[at..end] + b[end..];
  }

  /** Fields that hold the numbers read are encoded as the bytes they were read
      from. */
  lemma {:induction false} EncodeDecode(fields: seq<Field>, b: seq<byte>)
    requires Plain(Widths(fields)) && Total(Widths(fields)) <= |b| && Values(fields) == Decode(Widths(fields), b)
    ensures Fit(fields) && b == Encode(fields) + b[Total(Widths(fields))..]
  {
    if fields != [] {
      var n := |fields| - 1;
      var at, end := Total(Widths(fields[..n])), Total(Widths(fields));
      DecodeLast(fields, b);
      EncodeDecode(fields[..n], b);
      assert Widths(fields)[n] == fields[n].width;
      LastBytes(b, at, end, fields[n].width, fields[n].value);
      Associate(Encode(fields[..n]), Bytes(fields[n].width, fields[n].value), b[end..]);
    }
  }

  lemma {:induction false} ReadOneMetadataExact(b: seq<byte>)
    requires ReadOneMetadata(b).Read?
    ensures var r := ReadOneMetadata(b);
            Fit(MetadataFields(r.value)) && b == OneMetadata(r.value) + r.rest
  {
    TotalTwo(4, 4);
    var m := ReadOneMetadata(b).value;
    var fields := MetadataFields(m);
    assert Widths(fields) == [4, 4];
    assert Values(fields) == Decode([4, 4], b);
    EncodeDecode(fields, b);
    assert b[8..] == m.data + b[8..][|m.data|..];
  }

  /** If each piece is read exactly, so are all of them. */
  lemma {:induction false} ReadManyExact<T(!new)>(write: T -> seq<byte>, read: seq<byte> -> Result<T>, good: T -> bool,
                                                  n: nat, b: seq<byte>)
    requires forall c: seq<byte> :: read(c).Read? ==> good(read(c).value) && c == write(read(c).value) + read(c).rest
    requires ReadMany(read, n, b).Read?
    ensures var r := ReadMany(read, n, b);
            && |r.value| == n && b == Joined(write, r.value) + r.rest
            && forall k :: 0 <= k < n ==> good(r.value[k])
  {
    if n > 0 {
      var one := read(b);
      assert good(one.value) && b == write(one.value) + one.rest;
      ReadManyExact(write, read, good, n - 1, one.rest);
      var r := ReadMany(read, n, b);
      assert r.value[1..] == ReadMany(read, n - 1, one.rest).value;
      JoinedFirst(write, r.value);
      Associate(write(one.value), Joined(write, r.value[1..]), r.rest);
    }
  }

  lemma {:induction false} ReadMetadataExact(n: nat, b: seq<byte>)
    requires ReadMetadata(n, b).Read?
    ensures var r := ReadMetadata(n, b);
            && |r.value| == n && b == AllMetadata(r.value) + r.rest
            && forall k :: 0 <= k < n ==> Fit(MetadataFields(r.value[k]))
  {
    var good := (m: Metadata) => Fit(MetadataFields(m));
    forall c: seq<byte> | ReadOneMetadata(c).Read?
      ensures good(ReadOneMetadata(c).value) && c == OneMetadata(ReadOneMetadata(c).value) + ReadOneMetadata(c).rest
    {
      ReadOneMetadataExact(c);
    }
    ReadManyExact(OneMetadata, ReadOneMetadata, good, n, b);
  }

  lemma {:induction false} CountExact(b: seq<byte>)
    requires |b| >= 4
    ensures Total([4]) == 4 && |Decode([4], b)| == 1
    ensures var n := Decode([4], b)[0];
            n < UINT32_RANGE && b == Encode(CountFields(n)) + b[4..]
  {
    TotalTwo(4, 4);
    var n := Decode([4], b)[0];
    assert Widths(CountFields(n)) == [4];
    assert Values(CountFields(n)) == Decode([4], b);
    EncodeDecode(CountFields(n), b);
  }

  lemma {:induction false} ChannelHeadExact(b: seq<byte>, c: Channel)
    requires |b| >= 28 && Total(CHANNEL_WIDTHS) == 28
    requires Decode(CHANNEL_WIDTHS, b) ==
             [c.id, c.xRes, c.yRes, c.dataFormat, c.unit, c.integrationTime, c.modulationFrequency, |c.data|]
    ensures Fit(ChannelFields(c)) && b == Encode(ChannelFields(c)) + b[28..]
  {
    assert Widths(ChannelFields(c)) == CHANNEL_WIDTHS;
    assert Values(ChannelFields(c)) == Decode(CHANNEL_WIDTHS, b);
    EncodeDecode(ChannelFields(c), b);
  }

  lemma {:induction false} ChannelTailExact(b: seq<byte>, c: Channel)
    requires |b| >= 10 && Total(TAIL_WIDTHS) == 10
    requires Decode(TAIL_WIDTHS, b) == [c.lensIndex, c.flags, c.sequenceCounter, c.gain]
    ensures Fit(TailFields(c)) && b == Encode(TailFields(c)) + b[10..]
  {
    assert Widths(TailFields(c)) == TAIL_WIDTHS;
    assert Values(TailFields(c)) == Decode(TAIL_WIDTHS, b);
    EncodeDecode(TailFields(c), b);
  }

  lemma {:induction false} ReadChannelExact(b: seq<byte>)
    requires ReadChannel(b).Read?
    ensures var r := ReadChannel(b);
            ValidChannel(r.value) && b == OneChannel(r.value) + r.rest
  {
    Totals();
    var r := ReadChannel(b);
    var c := r.value;
    ChannelHeadExact(b, c);
    var b1 := b[28..];
    var b2 := b1[|c.data|..];
    assert b1 == c.data + b2;
    CountExact(b2);
    ReadMetadataExact(Decode([4], b2)[0], b2[4..]);
    var b3 := ReadMetadata(Decode([4], b2)[0], b2[4..]).rest;
    ChannelTailExact(b3, c);
    ChannelSplit(c, r.rest);
  }

  lemma {:induction false} ReadChannelsExact(n: nat, b: seq<byte>)
    requires ReadChannels(n, b).Read?
    ensures var r := ReadChannels(n, b);
            && |r.value| == n && b == AllChannels(r.value) + r.rest
            && forall k :: 0 <= k < n ==> ValidChannel(r.value[k])
  {
    forall c: seq<byte> | ReadChannel(c).Read?
      ensures ValidChannel(ReadChannel(c).value) && c == OneChannel(ReadChannel(c).value) + ReadChannel(c).rest
    {
      ReadChannelExact(c);
    }
    ReadManyExact(OneChannel, ReadChannel, ValidChannel, n, b);
  }

  lemma {:induction false} FrameHeadExact(b: seq<byte>, f: Frame)
    requires |b| >= 24 && Total(HEAD_WIDTHS) == 24
    requires Decode(HEAD_WIDTHS, b) ==
             [f.firmwareVersionNonFunc, f.firmwareVersionMinor, f.firmwareVersionMajor,
              f.mainTemp, f.ledTemp, f.genericTemp, f.frameCounter, f.timeStamp, |f.channels|]
    ensures Fit(HeadFields(f)) && b == Encode(HeadFields(f)) + b[24..]
  {
    assert Widths(HeadFields(f)) == HEAD_WIDTHS;
    assert Values(HeadFields(f)) == Decode(HEAD_WIDTHS, b);
    EncodeDecode(HeadFields(f), b);
  }

  lemma {:induction false} ReadV5Exact(b: seq<byte>)
    requires ReadV5(b).Read?
    ensures var r := ReadV5(b);
            && Valid(r.value) && r.value.sequenceCounter == 0
            && b == Encode(HeadFields(r.value)) + (AllChannels(r.value.channels)
                 + (Encode(CountFields(|r.value.metadata|)) + (AllMetadata(r.value.metadata) + r.rest)))
  {
    Totals();
    var r := ReadV5(b);
    var f := r.value;
    var n := Decode(HEAD_WIDTHS, b)[8];
    ReadChannelsExact(n, b[24..]);
    var b1 := ReadChannels(n, b[24..]).rest;
    FrameHeadExact(b, f);
    CountExact(b1);
    ReadMetadataExact(Decode([4], b1)[0], b1[4..]);
  }

  lemma {:induction false} PrefixExact(b: seq<byte>)
    requires |b| >= 3 && Total([2, 1]) == 3 && Decode([2, 1], b) == [PREAMBLE, VERSION]
    ensures b == Encode(PrefixFields()) + b[3..]
  {
    assert Widths(PrefixFields()) == [2, 1];
    assert Values(PrefixFields()) == Decode([2, 1], b);
    EncodeDecode(PrefixFields(), b);
  }

  /** What is read as a frame is that frame, written, and what follows it. */
  lemma {:induction false} ReadIsWritten(b: seq<byte>, sizeofFrame: nat)
    requires Deserialize(b, sizeofFrame).Read?
    ensures var r := Deserialize(b, sizeofFrame);
            Valid(r.value) && r.value.sequenceCounter == 0 && b == Serialized(r.value) + r.rest
  {
    TotalTwo(2, 1);
    var r := Deserialize(b, sizeofFrame);
    assert r == ReadV5(b[3..]);
    ReadV5Exact(b[3..]);
    PrefixExact(b);
    FrameSplit(r.value, r.rest);
  }

  /** An input is read as a frame if and only if it is long enough for the first
      check and begins with the serialized form of a frame. */
  lemma {:induction false} ReadIff(b: seq<byte>, sizeofFrame: nat)
    ensures Deserialize(b, sizeofFrame).Read? <==>
            |b| >= 3 + sizeofFrame && exists f: Frame :: Valid(f) && Serialized(f) <= b
  {
    if Deserialize(b, sizeofFrame).Read? {
      ReadIsWritten(b, sizeofFrame);
      assert Serialized(Deserialize(b, sizeofFrame).value) <= b;
    }
    if f: Frame :| Valid(f) && Serialized(f) <= b {
      RoundTripIff(f, b[|Serialized(f)|..], sizeofFrame);
      assert b == Serialized(f) + b[|Serialized(f)|..];
    }
  }

  lemma {:induction false} PrefixOfPrefix(all: seq<byte>, n: nat, part: seq<byte>, rest: seq<byte>)
    requires n <= |all| && all[..n] == part + rest
    ensures |part| <= n && all == part + all[|part|..]
  {
    assert all == all[..n] + all[n..];
  }

  /** A frame cut off anywhere is not read as a frame. */
  lemma {:induction false} CutOffIsRefused(f: Frame, n: nat, sizeofFrame: nat)
    requires Valid(f) && n < |Serialized(f)|
    ensures !Deserialize(Serialized(f)[..n], sizeofFrame).Read?
  {
    var all := Serialized(f);
    var r := Deserialize(all[..n], sizeofFrame);
    if r.Read? {
      ReadIsWritten(all[..n], sizeofFrame);
      PrefixOfPrefix(all, n, Serialized(r.value), r.rest);
      NotCutOff(f, r.value, n);
    }
  }

  lemma {:induction false} NotCutOff(f: Frame, g: Frame, n: nat)
    requires Valid(f) && Valid(g) && |Serialized(g)| <= n < |Serialized(f)|
    ensures !(Serialized(f) == Serialized(g) + Serialized(f)[|Serialized(g)|..])
  {
    var more := Serialized(f)[|Serialized(g)|..];
    if Serialized(f) == Serialized(g) + more {
      Unambiguous(f, g, more);
    }
  }
}
