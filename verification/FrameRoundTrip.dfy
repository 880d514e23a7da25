/** The serialized frame format is unambiguous: what the reader makes of what
    the writer wrote, for every frame and whatever follows it. */
module FrameRoundTrip {
  import opened Types
  import opened FieldCodec
  import opened FrameFormat

  lemma {:induction false} ReadOneMetadataBack(m: Metadata, rest: seq<byte>)
    requires Fit(MetadataFields(m))
    ensures ReadOneMetadata(OneMetadata(m) + rest) == Read(m, rest)
  {
    var fields := MetadataFields(m);
    DecodeEncode(fields, m.data + rest);
    assert Widths(fields) == [4, 4];
    TotalTwo(4, 4);
    AfterFields(fields, m.data, rest);
    assert Values(fields) == [m.id, |m.data|];
  }

  lemma {:induction false} ReadMetadataBack(ms: seq<Metadata>, rest: seq<byte>)
    requires ValidMetadata(ms)
    ensures ReadMetadata(|ms|, AllMetadata(ms) + rest) == Read(ms, rest)
  {
    forall k: nat, more: seq<byte> | k < |ms| ensures ReadOneMetadata(OneMetadata(ms[k]) + more) == Read(ms[k], more) {
      ReadOneMetadataBack(ms[k], more);
    }
    ReadManyBack(OneMetadata, ReadOneMetadata, ms, rest);
  }

  lemma {:induction false} CountBack(n: nat, rest: seq<byte>)
    requires n < UINT32_RANGE
    ensures var b := Encode(CountFields(n)) + rest;
            |b| >= 4 && Total([4]) == 4 && Decode([4], b)[0] == n && b[4..] == rest
  {
    TotalTwo(4, 4);
    assert Widths(CountFields(n)) == [4];
    DecodeEncode(CountFields(n), rest);
    assert Values(CountFields(n)) == [n];
  }

  lemma {:induction false} ChannelHeadBack(c: Channel, rest: seq<byte>)
    requires Fit(ChannelFields(c))
    ensures Total(CHANNEL_WIDTHS) == 28
    ensures var b := Encode(ChannelFields(c)) + rest;
            && |b| >= 28 && b[28..] == rest
            && Decode(CHANNEL_WIDTHS, b) ==
               [c.id, c.xRes, c.yRes, c.dataFormat, c.unit, c.integrationTime, c.modulationFrequency, |c.data|]
  {
    Totals();
    DecodeEncode(ChannelFields(c), rest);
    assert Widths(ChannelFields(c)) == CHANNEL_WIDTHS;
    assert Values(ChannelFields(c)) ==
           [c.id, c.xRes, c.yRes, c.dataFormat, c.unit, c.integrationTime, c.modulationFrequency, |c.data|];
  }

  lemma {:induction false} ChannelTailBack(c: Channel, rest: seq<byte>)
    requires Fit(TailFields(c))
    ensures Total(TAIL_WIDTHS) == 10
    ensures var b := Encode(TailFields(c)) + rest;
            |b| >= 10 && b[10..] == rest && Decode(TAIL_WIDTHS, b) == [c.lensIndex, c.flags, c.sequenceCounter, c.gain]
  {
    Totals();
    DecodeEncode(TailFields(c), rest);
    assert Widths(TailFields(c)) == TAIL_WIDTHS;
    assert Values(TailFields(c)) == [c.lensIndex, c.flags, c.sequenceCounter, c.gain];
  }

  /** A channel's bytes, taken apart as the reader takes them. */
  lemma {:induction false} ChannelSplit(c: Channel, rest: seq<byte>)
    ensures OneChannel(c) + rest ==
            Encode(ChannelFields(c))
              + (c.data + (Encode(CountFields(|c.metadata|))
                + (AllMetadata(c.metadata) + (Encode(TailFields(c)) + rest))))
  {
  }

  lemma {:induction false} ReadChannelBack(c: Channel, rest: seq<byte>)
    requires ValidChannel(c)
    ensures ReadChannel(OneChannel(c) + rest) == Read(c, rest)
  {
    ChannelSplit(c, rest);
    var b3 := Encode(TailFields(c)) + rest;
    var b2 := Encode(CountFields(|c.metadata|)) + (AllMetadata(c.metadata) + b3);
    ChannelHeadBack(c, c.data + b2);
    CountBack(|c.metadata|, AllMetadata(c.metadata) + b3);
    ReadMetadataBack(c.metadata, b3);
    ChannelTailBack(c, rest);
  }

  lemma {:induction false} ReadChannelsBack(cs: seq<Channel>, rest: seq<byte>)
    requires forall k :: 0 <= k < |cs| ==> ValidChannel(cs[k])
    ensures ReadChannels(|cs|, AllChannels(cs) + rest) == Read(cs, rest)
  {
    forall k: nat, more: seq<byte> | k < |cs| ensures ReadChannel(OneChannel(cs[k]) + more) == Read(cs[k], more) {
      ReadChannelBack(cs[k], more);
    }
    ReadManyBack(OneChannel, ReadChannel, cs, rest);
  }

  lemma {:induction false} FrameHeadBack(f: Frame, rest: seq<byte>)
    requires Fit(HeadFields(f))
    ensures Total(HEAD_WIDTHS) == 24
    ensures var b := Encode(HeadFields(f)) + rest;
            && |b| >= 24 && b[24..] == rest
            && Decode(HEAD_WIDTHS, b) ==
               [f.firmwareVersionNonFunc, f.firmwareVersionMinor, f.firmwareVersionMajor,
                f.mainTemp, f.ledTemp, f.genericTemp, f.frameCounter, f.timeStamp, |f.channels|]
  {
    Totals();
    DecodeEncode(HeadFields(f), rest);
    assert Widths(HeadFields(f)) == HEAD_WIDTHS;
    assert Values(HeadFields(f)) ==
           [f.firmwareVersionNonFunc, f.firmwareVersionMinor, f.firmwareVersionMajor,
            f.mainTemp, f.ledTemp, f.genericTemp, f.frameCounter, f.timeStamp, |f.channels|];
  }

  lemma {:induction false} PrefixBack(rest: seq<byte>)
    ensures var b := Encode(PrefixFields()) + rest;
            |b| == 3 + |rest| && b[3..] == rest && Total([2, 1]) == 3 && Decode([2, 1], b) == [PREAMBLE, VERSION]
  {
    TotalTwo(2, 1);
    DecodeEncode(PrefixFields(), rest);
    assert Widths(PrefixFields()) == [2, 1];
    assert Values(PrefixFields()) == [PREAMBLE, VERSION];
  }

  lemma {:induction false} FrameSplit(f: Frame, rest: seq<byte>)
    ensures Serialized(f) + rest ==
            Encode(PrefixFields()) + (Encode(HeadFields(f)) + (AllChannels(f.channels)
              + (Encode(CountFields(|f.metadata|)) + (AllMetadata(f.metadata) + rest))))
  {
  }

  lemma {:induction false} ReadV5Back(f: Frame, rest: seq<byte>)
    requires Valid(f)
    ensures ReadV5(Encode(HeadFields(f))
            + (AllChannels(f.channels) + (Encode(CountFields(|f.metadata|)) + (AllMetadata(f.metadata) + rest))))
            == Read(f.(sequenceCounter := 0), rest)
  {
    var b1 := Encode(CountFields(|f.metadata|)) + (AllMetadata(f.metadata) + rest);
    FrameHeadBack(f, AllChannels(f.channels) + b1);
    ReadChannelsBack(f.channels, b1);
    CountBack(|f.metadata|, AllMetadata(f.metadata) + rest);
    ReadMetadataBack(f.metadata, rest);
  }

  /** Round trip, and exactly when: what was written is read back, leaving
      what follows, if and only if the input is long enough for the reader's
      first check. */
  lemma {:induction false} RoundTripIff(f: Frame, rest: seq<byte>, sizeofFrame: nat)
    requires Valid(f)
    ensures Deserialize(Serialized(f) + rest, sizeofFrame) ==
            if |Serialized(f)| + |rest| >= 3 + sizeofFrame
              then Read(f.(sequenceCounter := 0), rest) else Failed(OutOfMemory)
  {
    FrameSplit(f, rest);
    PrefixBack(Encode(HeadFields(f))
      + (AllChannels(f.channels) + (Encode(CountFields(|f.metadata|)) + (AllMetadata(f.metadata) + rest))));
    ReadV5Back(f, rest);
  }

  /** The shortest frame is too short for the reader with 8-byte pointers. */
  lemma {:induction false} EmptyFrameDoesNotRoundTrip(f: Frame)
    requires Valid(f) && f.channels == [] && f.metadata == []
    ensures |Serialized(f)| == 31 && Deserialize(Serialized(f), 56) == Failed(OutOfMemory)
  {
    SerializedLength(f);
  }

  /** Frames with the same bytes agree in every serialized member, and no
      encoding is a proper prefix of another. */
  lemma {:induction false} Unambiguous(f: Frame, g: Frame, rest: seq<byte>)
    requires Valid(f) && Valid(g) && Serialized(f) == Serialized(g) + rest
    ensures f.(sequenceCounter := 0) == g.(sequenceCounter := 0) && rest == []
  {
    RoundTripIff(f, [], 0);
    RoundTripIff(g, rest, 0);
    assert Serialized(f) + [] == Serialized(f);
    PrefixBack([]);
    FrameSplit(f, []);
  }
}
