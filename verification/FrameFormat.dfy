/** The serialized frame format, version 5: what BTAserializeFrame writes
    (sdk/bta.c:2508-2568) and what BTAdeserializeFrame makes of it
    (sdk/bta.c:2584-2636, sdk/bta_serialization.c:406-545), as functions on
    byte sequences. Serializer.dfy holds the writer in its own form. */
module FrameFormat {
  import opened Types
  import opened FieldCodec

  const PREAMBLE: nat := 0xb105
  const PREAMBLE_LZMA: nat := 0x5cbc
  const VERSION: nat := 5

  // ---- Frames ----

  datatype Metadata = Metadata(id: nat, data: seq<byte>)

  /** Floating-point members are 32-bit patterns. */
  datatype Channel = Channel(id: nat, xRes: nat, yRes: nat, dataFormat: nat, unit: nat, integrationTime: nat,
                             modulationFrequency: nat, data: seq<byte>, metadata: seq<Metadata>,
                             lensIndex: nat, flags: nat, sequenceCounter: nat, gain: nat)

  datatype Frame = Frame(firmwareVersionNonFunc: nat, firmwareVersionMinor: nat, firmwareVersionMajor: nat,
                         mainTemp: nat, ledTemp: nat, genericTemp: nat, frameCounter: nat, timeStamp: nat,
                         sequenceCounter: nat, channels: seq<Channel>, metadata: seq<Metadata>)

  function PrefixFields(): seq<Field> {
    [Field(2, PREAMBLE), Field(1, VERSION)]
  }

  function HeadFields(f: Frame): seq<Field> {
    [Field(1, f.firmwareVersionNonFunc), Field(1, f.firmwareVersionMinor), Field(1, f.firmwareVersionMajor),
     Field(4, f.mainTemp), Field(4, f.ledTemp), Field(4, f.genericTemp),
     Field(4, f.frameCounter), Field(4, f.timeStamp), Field(1, |f.channels|)]
  }

  function ChannelFields(c: Channel): seq<Field> {
    [Field(4, c.id), Field(2, c.xRes), Field(2, c.yRes), Field(4, c.dataFormat), Field(4, c.unit),
     Field(4, c.integrationTime), Field(4, c.modulationFrequency), Field(4, |c.data|)]
  }

  function TailFields(c: Channel): seq<Field> {
    [Field(1, c.lensIndex), Field(4, c.flags), Field(1, c.sequenceCounter), Field(4, c.gain)]
  }

  function MetadataFields(m: Metadata): seq<Field> {
    [Field(4, m.id), Field(4, |m.data|)]
  }

  function CountFields(n: nat): seq<Field> {
    [Field(4, n)]
  }

  predicate ValidMetadata(ms: seq<Metadata>) {
    |ms| < UINT32_RANGE && forall k :: 0 <= k < |ms| ==> Fit(MetadataFields(ms[k]))
  }

  predicate ValidChannel(c: Channel) {
    Fit(ChannelFields(c)) && Fit(TailFields(c)) && ValidMetadata(c.metadata)
  }

  predicate Valid(f: Frame) {
    && Fit(HeadFields(f)) && ValidMetadata(f.metadata)
    && forall k :: 0 <= k < |f.channels| ==> ValidChannel(f.channels[k])
  }

  // ---- Writing ----

  function OneMetadata(m: Metadata): seq<byte> {
    Encode(MetadataFields(m)) + m.data
  }

  function AllMetadata(ms: seq<Metadata>): seq<byte> {
    Joined(OneMetadata, ms)
  }

  function OneChannel(c: Channel): seq<byte> {
    Encode(ChannelFields(c)) + c.data + Encode(CountFields(|c.metadata|)) + AllMetadata(c.metadata)
      + Encode(TailFields(c))
  }

  function AllChannels(cs: seq<Channel>): seq<byte> {
    Joined(OneChannel, cs)
  }

  function Serialized(f: Frame): seq<byte> {
    Encode(PrefixFields()) + Encode(HeadFields(f)) + AllChannels(f.channels) + Encode(CountFields(|f.metadata|))
      + AllMetadata(f.metadata)
  }

  // ---- Length ----

  lemma {:induction false} OneMetadataLength(m: Metadata)
    ensures |OneMetadata(m)| == 8 + |m.data|
  {
    EncodeLength(MetadataFields(m));
    assert Widths(MetadataFields(m)) == [4, 4];
    TotalTwo(4, 4);
  }

  lemma {:induction false} OneChannelLength(c: Channel)
    ensures |OneChannel(c)| == 42 + |c.data| + |AllMetadata(c.metadata)|
  {
    Totals();
    TotalTwo(4, 4);
    EncodeLength(ChannelFields(c));
    assert Widths(ChannelFields(c)) == CHANNEL_WIDTHS;
    EncodeLength(CountFields(|c.metadata|));
    assert Widths(CountFields(|c.metadata|)) == [4];
    EncodeLength(TailFields(c));
    assert Widths(TailFields(c)) == TAIL_WIDTHS;
  }

  lemma {:induction false} SerializedLength(f: Frame)
    ensures |Serialized(f)| == 31 + |AllChannels(f.channels)| + |AllMetadata(f.metadata)|
  {
    Totals();
    TotalTwo(2, 1);
    TotalTwo(4, 4);
    EncodeLength(PrefixFields());
    assert Widths(PrefixFields()) == [2, 1];
    EncodeLength(HeadFields(f));
    assert Widths(HeadFields(f)) == HEAD_WIDTHS;
    EncodeLength(CountFields(|f.metadata|));
    assert Widths(CountFields(|f.metadata|)) == [4];
  }

  // ---- Reading ----

  const HEAD_WIDTHS: seq<nat> := [1, 1, 1, 4, 4, 4, 4, 4, 1]
  const CHANNEL_WIDTHS: seq<nat> := [4, 2, 2, 4, 4, 4, 4, 4]
  const TAIL_WIDTHS: seq<nat> := [1, 4, 1, 4]

  lemma {:induction false} Totals()
    ensures Total(HEAD_WIDTHS) == 24 && Total(CHANNEL_WIDTHS) == 28 && Total(TAIL_WIDTHS) == 10
  {
    TotalFour(1, 4, 1, 4);
    TotalFour(4, 2, 2, 4);
    TotalFour(1, 1, 1, 4);
    TotalFour(4, 4, 4, 4);
    TotalAdd([4, 2, 2, 4], [4, 4, 4, 4]);
    assert CHANNEL_WIDTHS == [4, 2, 2, 4] + [4, 4, 4, 4];
    TotalAdd([1, 1, 1, 4], [4, 4, 4, 4]);
    TotalAdd([1, 1, 1, 4] + [4, 4, 4, 4], [1]);
    assert HEAD_WIDTHS == [1, 1, 1, 4] + [4, 4, 4, 4] + [1];
    assert [1][..0] == [];
  }

  function ReadOneMetadata(b: seq<byte>): Result<Metadata> {
    if |b| < 8 then Failed(OutOfMemory)
    else
      TotalTwo(4, 4);
      var v := Decode([4, 4], b);
      if |b[8..]| < v[1] then Failed(OutOfMemory)
      else Read(Metadata(v[0], b[8..][..v[1]]), b[8..][v[1]..])
  }

  function ReadMetadata(n: nat, b: seq<byte>): Result<seq<Metadata>> {
    ReadMany(ReadOneMetadata, n, b)
  }

  function ReadChannel(b: seq<byte>): Result<Channel> {
    if |b| < 42 then Failed(OutOfMemory)
    else
      Totals();
      var v := Decode(CHANNEL_WIDTHS, b);
      var b1 := b[28..];
      if |b1| < v[7] then Failed(OutOfMemory)
      else
        var b2 := b1[v[7]..];
        if |b2| < 4 then Failed(OutOfMemory)
        else
          match ReadMetadata(Decode([4], b2)[0], b2[4..])
          case Failed(status) => Failed(status)
          case Overrun => Overrun
          case Elsewhere => Elsewhere
          case Read(ms, b3) =>
            if |b3| < 10 then Overrun
            else
              var t := Decode(TAIL_WIDTHS, b3);
              Read(Channel(v[0], v[1], v[2], v[3], v[4], v[5], v[6], b1[..v[7]], ms, t[0], t[1], t[2], t[3]), b3[10..])
  }

  function ReadChannels(n: nat, b: seq<byte>): Result<seq<Channel>> {
    ReadMany(ReadChannel, n, b)
  }

  /** The part after preamble and version; the reader sets sequenceCounter to 0. */
  function ReadV5(b: seq<byte>): Result<Frame> {
    if |b| < 28 then Failed(OutOfMemory)
    else
      Totals();
      var v := Decode(HEAD_WIDTHS, b);
      match ReadChannels(v[8], b[24..])
      case Failed(status) => Failed(status)
      case Overrun => Overrun
      case Elsewhere => Elsewhere
      case Read(cs, b1) =>
        if |b1| < 4 then Failed(OutOfMemory)
        else
          match ReadMetadata(Decode([4], b1)[0], b1[4..])
          case Read(ms, end) => Read(Frame(v[0], v[1], v[2], v[3], v[4], v[5], v[6], v[7], 0, cs, ms), end)
          case Failed(status) => Failed(status)
          case Overrun => Overrun
          case Elsewhere => Elsewhere
  }

  /** `sizeofFrame` is the size of the frame structure in memory, which the
      reader demands of its input (56 with 8-byte pointers). */
  function Deserialize(b: seq<byte>, sizeofFrame: nat): Result<Frame> {
    if |b| < 3 + sizeofFrame then Failed(OutOfMemory)
    else
      var v := Decode([2, 1], b);
      if v[0] == PREAMBLE_LZMA then Elsewhere
      else if v[0] != PREAMBLE then Failed(InvalidParameter)
      else if v[1] == VERSION then ReadV5(b[3..])
      else if 1 <= v[1] <= 4 then Elsewhere
      else Failed(InvalidVersion)
  }
}
