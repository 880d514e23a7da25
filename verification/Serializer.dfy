/** BTAgetSerializedLength and BTAserializeFrame (sdk/bta.c:2465-2568) in their
    own form: nested loops that add up a length, and that write a buffer at a
    moving index, proved against the format of FrameFormat. */
module Serializer {
  import opened Types
  import opened FieldCodec
  import opened FrameFormat
  import BitConverter

  datatype Outcome = Ok | NoRoom

  // ---- The length ----

  /** The length as the code adds it up, in 32-bit arithmetic. */
  method GetSerializedLength(frame: Frame) returns (length: nat)
    ensures length == |Serialized(frame)| % UINT32_RANGE
  {
    length := 2 + 1 + 3 * 1 + 3 * 4 + 4 + 4 + 1;
    length := ChannelsLength(frame.channels, length);
    length := (length + 4) % UINT32_RANGE;
    length := MetadataLength(frame.metadata, length);
    SerializedLength(frame);
    AddThree(27, |AllChannels(frame.channels)|, 4, |AllMetadata(frame.metadata)|);
  }

  method ChannelsLength(channels: seq<Channel>, length: nat) returns (sum: nat)
    requires length < UINT32_RANGE
    ensures sum == (length + |AllChannels(channels)|) % UINT32_RANGE
  {
    sum := length;
    for chInd := 0 to |channels|
      invariant sum == (length + |AllChannels(channels[..chInd])|) % UINT32_RANGE
    {
      assert channels[..chInd + 1][..chInd] == channels[..chInd];
      AddOne(length + |AllChannels(channels[..chInd])|, |OneChannel(channels[chInd])|);
      sum := ChannelLength(channels[chInd], sum);
    }
    assert channels[..|channels|] == channels;
  }

  /** Adds the length of a channel to `length`. */
  method ChannelLength(channel: Channel, length: nat) returns (sum: nat)
    requires length < UINT32_RANGE
    ensures sum == (length + |OneChannel(channel)|) % UINT32_RANGE
  {
    sum := (length + 4 + 2 + 2 + 4 * 4 + |channel.data| + 4 + 4) % UINT32_RANGE;
    sum := MetadataLength(channel.metadata, sum);
    sum := (sum + 1 + 4 + 1 + 4) % UINT32_RANGE;
    OneChannelLength(channel);
    AddThree(length, 32 + |channel.data|, |AllMetadata(channel.metadata)|, 10);
  }

  lemma {:induction false} AddThree(exact: nat, a: nat, b: nat, c: nat)
    ensures ((((exact % UINT32_RANGE + a) % UINT32_RANGE) + b) % UINT32_RANGE + c) % UINT32_RANGE ==
            (exact + a + b + c) % UINT32_RANGE
  {
    AddOne(exact, a);
    AddOne(exact + a, b);
    AddOne(exact + a + b, c);
  }

  lemma {:induction false} AddOne(exact: nat, a: nat)
    ensures (exact % UINT32_RANGE + a) % UINT32_RANGE == (exact + a) % UINT32_RANGE
  {
  }

  /** Adds the length of the metadata to `length`. */
  method MetadataLength(metadata: seq<Metadata>, length: nat) returns (sum: nat)
    requires length < UINT32_RANGE
    ensures sum == (length + |AllMetadata(metadata)|) % UINT32_RANGE
  {
    sum := length;
    for mdInd := 0 to |metadata|
      invariant sum == (length + |AllMetadata(metadata[..mdInd])|) % UINT32_RANGE
    {
      OneMetadataLength(metadata[mdInd]);
      assert metadata[..mdInd + 1][..mdInd] == metadata[..mdInd];
      AddOne(length + |AllMetadata(metadata[..mdInd])|, 8 + |metadata[mdInd].data|);
      sum := (sum + 4 + 4 + |metadata[mdInd].data|) % UINT32_RANGE;
    }
    assert metadata[..|metadata|] == metadata;
  }

  // ---- Writing ----

  /** Up to `index` the buffer `s` holds `text`; from there on it is still what
      it was. */
  ghost predicate Progress(s: seq<byte>, was: seq<byte>, text: seq<byte>, index: nat) {
    index <= |s| == |was| && s[..index] == text && s[index..] == was[index..]
  }

  lemma {:induction false} MoreProgress(s: seq<byte>, s': seq<byte>, was: seq<byte>, text: seq<byte>, index: nat,
                                        bytes: seq<byte>)
    requires Progress(s, was, text, index) && index + |bytes| <= |s| == |s'|
    requires s'[..index + |bytes|] == s[..index] + bytes && s'[index + |bytes|..] == s[index + |bytes|..]
    ensures Progress(s', was, text + bytes, index + |bytes|)
  {
    assert s[index + |bytes|..] == s[index..][|bytes|..];
    assert was[index + |bytes|..] == was[index..][|bytes|..];
  }

  /** One number; `done` are the fields written since the text was `base`. */
  method Put(width: nat, v: nat, stream: array<byte>, index: nat, ghost was: seq<byte>, ghost base: seq<byte>,
             ghost done: seq<Field>)
    returns (next: nat, ghost more: seq<Field>)
    requires width in {1, 2, 4} && v < Limit(width) && index + width <= stream.Length
    requires Progress(stream[..], was, base + Encode(done), index)
    modifies stream
    ensures next == index + width && more == done + [Field(width, v)]
    ensures Progress(stream[..], was, base + Encode(more), next)
  {
    var moved;
    if width == 1 {
      moved := BitConverter.FromUInt08(v, stream, Some(index));
    } else if width == 2 {
      moved := BitConverter.FromUInt16(v, stream, Some(index));
    } else {
      moved := BitConverter.FromUInt32(v, stream, Some(index));
    }
    next := moved.value;
    MoreProgress(old(stream[..]), stream[..], was, base + Encode(done), index, Bytes(width, v));
    more := done + [Field(width, v)];
    EncodeAppend(done, width, v);
    Associate(base, Encode(done), Bytes(width, v));
  }

  /** A string of bytes. */
  method PutStream(v: seq<byte>, stream: array<byte>, index: nat, ghost was: seq<byte>, ghost text: seq<byte>)
    returns (next: nat)
    requires index + |v| <= stream.Length && Progress(stream[..], was, text, index)
    modifies stream
    ensures next == index + |v| && Progress(stream[..], was, text + v, next)
  {
    var moved := BitConverter.FromStream(v, stream, Some(index));
    next := moved.value;
    MoreProgress(old(stream[..]), stream[..], was, text, index, v);
  }

  lemma {:induction false} FitEach(fields: seq<Field>)
    requires Fit(fields)
    ensures |fields| > 0 ==> fields[0].value < Limit(fields[0].width)
    ensures |fields| > 1 ==> fields[1].value < Limit(fields[1].width)
    ensures |fields| > 2 ==> fields[2].value < Limit(fields[2].width)
    ensures |fields| > 3 ==> fields[3].value < Limit(fields[3].width)
    ensures |fields| > 4 ==> fields[4].value < Limit(fields[4].width)
    ensures |fields| > 5 ==> fields[5].value < Limit(fields[5].width)
    ensures |fields| > 6 ==> fields[6].value < Limit(fields[6].width)
    ensures |fields| > 7 ==> fields[7].value < Limit(fields[7].width)
    ensures |fields| > 8 ==> fields[8].value < Limit(fields[8].width)
  {
  }

  /** Firmware version and temperatures. */
  method WriteState(frame: Frame, stream: array<byte>, index: nat, ghost was: seq<byte>, ghost base: seq<byte>)
    returns (next: nat, ghost done: seq<Field>)
    requires Fit(HeadFields(frame)) && index + 15 <= stream.Length
    requires Progress(stream[..], was, base, index)
    modifies stream
    ensures next == index + 15 && done == HeadFields(frame)[..6]
    ensures Progress(stream[..], was, base + Encode(done), next)
  {
    done := [];
    assert base + Encode(done) == base;
    FitEach(HeadFields(frame));
    next, done := Put(1, frame.firmwareVersionNonFunc, stream, index, was, base, done);
    next, done := Put(1, frame.firmwareVersionMinor, stream, next, was, base, done);
    next, done := Put(1, frame.firmwareVersionMajor, stream, next, was, base, done);
    next, done := Put(4, frame.mainTemp, stream, next, was, base, done);
    next, done := Put(4, frame.ledTemp, stream, next, was, base, done);
    next, done := Put(4, frame.genericTemp, stream, next, was, base, done);
  }

  method WriteHead(frame: Frame, stream: array<byte>, index: nat, ghost was: seq<byte>, ghost base: seq<byte>)
    returns (next: nat)
    requires Fit(HeadFields(frame)) && index + 24 <= stream.Length
    requires Progress(stream[..], was, base, index)
    modifies stream
    ensures next == index + 24 && Progress(stream[..], was, base + Encode(HeadFields(frame)), next)
  {
    ghost var done;
    FitEach(HeadFields(frame));
    next, done := WriteState(frame, stream, index, was, base);
    next, done := Put(4, frame.frameCounter, stream, next, was, base, done);
    next, done := Put(4, frame.timeStamp, stream, next, was, base, done);
    next, done := Put(1, |frame.channels|, stream, next, was, base, done);
    assert done == HeadFields(frame);
  }

  method WriteMetadata(metadata: seq<Metadata>, stream: array<byte>, index: nat, ghost was: seq<byte>,
                       ghost base: seq<byte>) returns (next: nat)
    requires ValidMetadata(metadata) && index + |AllMetadata(metadata)| <= stream.Length
    requires Progress(stream[..], was, base, index)
    modifies stream
    ensures next == index + |AllMetadata(metadata)| && Progress(stream[..], was, base + AllMetadata(metadata), next)
  {
    next := index;
    assert base + AllMetadata(metadata[..0]) == base;
    for mdInd := 0 to |metadata|
      invariant next == index + |AllMetadata(metadata[..mdInd])|
      invariant Progress(stream[..], was, base + AllMetadata(metadata[..mdInd]), next)
    {
      assert metadata[..mdInd + 1][..mdInd] == metadata[..mdInd];
      MetadataFits(metadata, mdInd);
      next := WriteOneMetadata(metadata[mdInd], stream, next, was, base + AllMetadata(metadata[..mdInd]));
      Associate(base, AllMetadata(metadata[..mdInd]), OneMetadata(metadata[mdInd]));
    }
    assert metadata[..|metadata|] == metadata;
  }

  /** A part of the metadata is no longer than all of it. */
  lemma {:induction false} MetadataFits(metadata: seq<Metadata>, k: nat)
    requires k < |metadata|
    ensures |AllMetadata(metadata[..k])| + |OneMetadata(metadata[k])| <= |AllMetadata(metadata)|
  {
    JoinedFits(OneMetadata, metadata, k);
  }

  lemma {:induction false} JoinedFits<T>(write: T -> seq<byte>, xs: seq<T>, k: nat)
    requires k < |xs|
    ensures |Joined(write, xs[..k])| + |write(xs[k])| <= |Joined(write, xs)|
  {
    var n := |xs| - 1;
    if k < n {
      JoinedFits(write, xs[..n], k);
      assert xs[..n][..k] == xs[..k];
    }
  }

  method WriteOneMetadata(metadata: Metadata, stream: array<byte>, index: nat, ghost was: seq<byte>,
                          ghost base: seq<byte>) returns (next: nat)
    requires Fit(MetadataFields(metadata)) && index + |OneMetadata(metadata)| <= stream.Length
    requires Progress(stream[..], was, base, index)
    modifies stream
    ensures next == index + |OneMetadata(metadata)| && Progress(stream[..], was, base + OneMetadata(metadata), next)
  {
    ghost var done: seq<Field> := [];
    assert base + Encode(done) == base;
    FitEach(MetadataFields(metadata));
    OneMetadataLength(metadata);
    next, done := Put(4, metadata.id, stream, index, was, base, done);
    next, done := Put(4, |metadata.data|, stream, next, was, base, done);
    assert done == MetadataFields(metadata);
    next := PutStream(metadata.data, stream, next, was, base + Encode(done));
    Associate(base, Encode(done), metadata.data);
  }

  /** A count of channels' or frames' metadata. */
  method WriteCount(n: nat, stream: array<byte>, index: nat, ghost was: seq<byte>, ghost base: seq<byte>)
    returns (next: nat)
    requires n < UINT32_RANGE && index + 4 <= stream.Length
    requires Progress(stream[..], was, base, index)
    modifies stream
    ensures next == index + 4 && Progress(stream[..], was, base + Encode(CountFields(n)), next)
  {
    ghost var done: seq<Field> := [];
    assert base + Encode(done) == base;
    next, done := Put(4, n, stream, index, was, base, done);
    assert done == CountFields(n);
  }

  method WriteChannelHead(channel: Channel, stream: array<byte>, index: nat, ghost was: seq<byte>,
                          ghost base: seq<byte>) returns (next: nat)
    requires Fit(ChannelFields(channel)) && index + 28 <= stream.Length
    requires Progress(stream[..], was, base, index)
    modifies stream
    ensures next == index + 28 && Progress(stream[..], was, base + Encode(ChannelFields(channel)), next)
  {
    ghost var done: seq<Field> := [];
    assert base + Encode(done) == base;
    FitEach(ChannelFields(channel));
    next, done := Put(4, channel.id, stream, index, was, base, done);
    next, done := Put(2, channel.xRes, stream, next, was, base, done);
    next, done := Put(2, channel.yRes, stream, next, was, base, done);
    next, done := Put(4, channel.dataFormat, stream, next, was, base, done);
    next, done := Put(4, channel.unit, stream, next, was, base, done);
    next, done := Put(4, channel.integrationTime, stream, next, was, base, done);
    next, done := Put(4, channel.modulationFrequency, stream, next, was, base, done);
    next, done := Put(4, |channel.data|, stream, next, was, base, done);
    assert done == ChannelFields(channel);
  }

  method WriteChannelTail(channel: Channel, stream: array<byte>, index: nat, ghost was: seq<byte>,
                          ghost base: seq<byte>) returns (next: nat)
    requires Fit(TailFields(channel)) && index + 10 <= stream.Length
    requires Progress(stream[..], was, base, index)
    modifies stream
    ensures next == index + 10 && Progress(stream[..], was, base + Encode(TailFields(channel)), next)
  {
    ghost var done: seq<Field> := [];
    assert base + Encode(done) == base;
    FitEach(TailFields(channel));
    next, done := Put(1, channel.lensIndex, stream, index, was, base, done);
    next, done := Put(4, channel.flags, stream, next, was, base, done);
    next, done := Put(1, channel.sequenceCounter, stream, next, was, base, done);
    next, done := Put(4, channel.gain, stream, next, was, base, done);
    assert done == TailFields(channel);
  }

  method WriteChannel(channel: Channel, stream: array<byte>, index: nat, ghost was: seq<byte>, ghost base: seq<byte>)
    returns (next: nat)
    requires ValidChannel(channel) && index + |OneChannel(channel)| <= stream.Length
    requires Progress(stream[..], was, base, index)
    modifies stream
    ensures next == index + |OneChannel(channel)| && Progress(stream[..], was, base + OneChannel(channel), next)
  {
    OneChannelLength(channel);
    ghost var text := base + Encode(ChannelFields(channel));
    next := WriteChannelHead(channel, stream, index, was, base);
    next := PutStream(channel.data, stream, next, was, text);
    text := text + channel.data;
    next := WriteCount(|channel.metadata|, stream, next, was, text);
    text := text + Encode(CountFields(|channel.metadata|));
    next := WriteMetadata(channel.metadata, stream, next, was, text);
    text := text + AllMetadata(channel.metadata);
    next := WriteChannelTail(channel, stream, next, was, text);
    text := text + Encode(TailFields(channel));
    Regroup5(base, Encode(ChannelFields(channel)), channel.data, Encode(CountFields(|channel.metadata|)),
      AllMetadata(channel.metadata), Encode(TailFields(channel)));
  }

  lemma {:induction false} Regroup5(base: seq<byte>, a: seq<byte>, b: seq<byte>, c: seq<byte>, d: seq<byte>,
                                    e: seq<byte>)
    ensures base + a + b + c + d + e == base + (a + b + c + d + e)
  {
    Associate(base, a, b);
    Associate(base, a + b, c);
    Associate(base, a + b + c, d);
    Associate(base, a + b + c + d, e);
  }

  method WriteChannels(channels: seq<Channel>, stream: array<byte>, index: nat, ghost was: seq<byte>,
                       ghost base: seq<byte>) returns (next: nat)
    requires forall k :: 0 <= k < |channels| ==> ValidChannel(channels[k])
    requires index + |AllChannels(channels)| <= stream.Length
    requires Progress(stream[..], was, base, index)
    modifies stream
    ensures next == index + |AllChannels(channels)| && Progress(stream[..], was, base + AllChannels(channels), next)
  {
    next := index;
    assert base + AllChannels(channels[..0]) == base;
    for chInd := 0 to |channels|
      invariant next == index + |AllChannels(channels[..chInd])|
      invariant Progress(stream[..], was, base + AllChannels(channels[..chInd]), next)
    {
      assert channels[..chInd + 1][..chInd] == channels[..chInd];
      JoinedFits(OneChannel, channels, chInd);
      next := WriteChannel(channels[chInd], stream, next, was, base + AllChannels(channels[..chInd]));
      Associate(base, AllChannels(channels[..chInd]), OneChannel(channels[chInd]));
    }
    assert channels[..|channels|] == channels;
  }

  method WritePrefix(stream: array<byte>, ghost was: seq<byte>) returns (next: nat)
    requires 3 <= stream.Length && stream[..] == was
    modifies stream
    ensures next == 3 && Progress(stream[..], was, Encode(PrefixFields()), next)
  {
    ghost var done: seq<Field> := [];
    assert [] + Encode(done) == [];
    next, done := Put(2, PREAMBLE, stream, 0, was, [], done);
    next, done := Put(1, VERSION, stream, next, was, [], done);
    assert done == PrefixFields();
    assert [] + Encode(done) == Encode(done);
  }

  /** Writes the whole frame from the start of the buffer. */
  method WriteFrame(frame: Frame, stream: array<byte>, ghost was: seq<byte>) returns (next: nat)
    requires Valid(frame) && |Serialized(frame)| <= stream.Length && stream[..] == was
    modifies stream
    ensures next == |Serialized(frame)| && Progress(stream[..], was, Serialized(frame), next)
  {
    SerializedLength(frame);
    ghost var text := Encode(PrefixFields());
    next := WritePrefix(stream, was);
    next := WriteHead(frame, stream, next, was, text);
    text := text + Encode(HeadFields(frame));
    next := WriteChannels(frame.channels, stream, next, was, text);
    text := text + AllChannels(frame.channels);
    next := WriteCount(|frame.metadata|, stream, next, was, text);
    text := text + Encode(CountFields(|frame.metadata|));
    next := WriteMetadata(frame.metadata, stream, next, was, text);
  }

  // ---- The room test ----

  /** The test lets a buffer of this size pass that the frame does not fit into. */
  predicate Overruns(frame: Frame, room: nat) {
    |Serialized(frame)| % UINT32_RANGE <= room < |Serialized(frame)|
  }

  /** The length announced is the length written, and no buffer that passes the
      test is too small, exactly for frames of less than 2^32 bytes. */
  lemma {:induction false} AnnouncedIsWrittenIff(frame: Frame)
    ensures |Serialized(frame)| % UINT32_RANGE == |Serialized(frame)| <==> |Serialized(frame)| < UINT32_RANGE
    ensures (forall room: nat :: room < UINT32_RANGE ==> !Overruns(frame, room)) <==>
            |Serialized(frame)| < UINT32_RANGE
  {
    var announced := |Serialized(frame)| % UINT32_RANGE;
    if |Serialized(frame)| >= UINT32_RANGE {
      assert Overruns(frame, announced);
    }
  }

  /** A frame whose only channel has as many data bytes as 32 bits can count. */
  function Largest(): Frame {
    Frame(0, 0, 0, 0, 0, 0, 0, 0, 0,
          [Channel(0, 0, 0, 0, 0, 0, 0, seq(UINT32_RANGE - 1, _ => 0), [], 0, 0, 0, 0)], [])
  }

  /** There is such a frame: it passes as one of 72 bytes. */
  lemma {:induction false} LargestOverruns()
    ensures Valid(Largest()) && Overruns(Largest(), 72)
  {
    var f := Largest();
    SerializedLength(f);
    OneChannelLength(f.channels[0]);
    assert f.channels[..0] == [] && f.channels[1..] == [];
    assert AllMetadata([]) == [];
    assert AllChannels(f.channels) == OneChannel(f.channels[0]);
  }

  /** Writes the frame and says how long it is, unless the buffer is too small;
      beyond the frame the buffer is untouched. Left out are just the calls that
      write beyond the buffer. */
  method SerializeFrame(frame: Frame, frameSerialized: array<byte>, frameSerializedLen: nat)
    returns (outcome: Outcome, length: nat)
    requires Valid(frame) && frameSerializedLen <= frameSerialized.Length && frameSerializedLen < UINT32_RANGE
    requires !Overruns(frame, frameSerializedLen)
    modifies frameSerialized
    ensures outcome == NoRoom <==> frameSerializedLen < |Serialized(frame)|
    ensures outcome == NoRoom ==> length == frameSerializedLen && frameSerialized[..] == old(frameSerialized[..])
    ensures outcome == Ok ==>
              && length == |Serialized(frame)| && frameSerialized[..length] == Serialized(frame)
              && frameSerialized[length..] == old(frameSerialized[length..])
  {
    var needed := GetSerializedLength(frame);
    if frameSerializedLen < needed {
      return NoRoom, frameSerializedLen;
    }
    length := WriteFrame(frame, frameSerialized, frameSerialized[..]);
    outcome := Ok;
  }
}
