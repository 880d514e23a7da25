/** Where each member of a frame stands in its serialized form, version 5
    (sdk/bta.c:2508-2568), byte by byte. */
module FrameLayout {
  import opened FieldCodec
  import opened FrameFormat
  import opened Types

  predicate Has16(b: seq<byte>, k: nat, v: nat) {
    k + 2 <= |b| && b[k] == v % 0x100 && b[k + 1] == v / 0x100
  }

  predicate Has32(b: seq<byte>, k: nat, v: nat) {
    && k + 4 <= |b|
    && b[k] == v % 0x100 && b[k + 1] == v / 0x100 % 0x100
    && b[k + 2] == v / 0x1_0000 % 0x100 && b[k + 3] == v / 0x100_0000
  }

  predicate Has8(b: seq<byte>, k: nat, v: nat) {
    k < |b| && b[k] == v
  }

  predicate HasBytes(b: seq<byte>, k: nat, part: seq<byte>) {
    k + |part| <= |b| && b[k..k + |part|] == part
  }

  /** A number of the given width at offset k. */
  predicate Has(b: seq<byte>, k: nat, width: nat, v: nat) {
    match width
    case 1 => Has8(b, k, v)
    case 2 => Has16(b, k, v)
    case _ => Has32(b, k, v)
  }

  lemma {:induction false} BytesStand(b: seq<byte>, k: nat, width: nat, v: nat)
    requires HasBytes(b, k, Bytes(width, v)) && width in {1, 2, 4} && v < Limit(width)
    ensures Has(b, k, width, v)
  {
    BytesAre(v);
    var part := b[k..k + width];
    assert part == Bytes(width, v) && part[0] == b[k];
    if width == 2 {
      assert part[1] == b[k + 1];
    } else if width == 4 {
      assert part[1] == b[k + 1] && part[2] == b[k + 2] && part[3] == b[k + 3];
    }
  }

  lemma {:induction false} PartOfPart(b: seq<byte>, k: nat, part: seq<byte>, j: nat, small: seq<byte>)
    requires HasBytes(b, k, part) && HasBytes(part, j, small)
    ensures HasBytes(b, k + j, small)
  {
    forall i | 0 <= i < |small| ensures b[k + j..k + j + |small|][i] == small[i] {
      assert part[j..j + |small|][i] == part[j + i] && b[k..k + |part|][j + i] == b[k + j + i];
    }
  }

  lemma {:induction false} Middle(a: seq<byte>, b: seq<byte>, c: seq<byte>)
    ensures HasBytes(a + b + c, |a|, b)
  {
  }

  lemma {:induction false} TotalPrefix(w: seq<nat>, k: nat)
    requires k < |w|
    ensures Total(w[..k + 1]) == Total(w[..k]) + w[k]
  {
    assert w[..k + 1][..k] == w[..k];
  }

  /** Field k of a run of fields comes after the widths of those before it. */
  lemma {:induction false} FieldStands(fields: seq<Field>, k: nat)
    requires k < |fields|
    ensures HasBytes(Encode(fields), Total(Widths(fields)[..k]), Bytes(fields[k].width, fields[k].value))
  {
    var n := |fields| - 1;
    EncodeLength(fields[..n]);
    assert Widths(fields)[..n] == Widths(fields[..n]);
    if k < n {
      FieldStands(fields[..n], k);
      assert Widths(fields)[..k] == Widths(fields[..n])[..k];
      assert HasBytes(Encode(fields), 0, Encode(fields[..n]));
      PartOfPart(Encode(fields), 0, Encode(fields[..n]), Total(Widths(fields)[..k]),
                 Bytes(fields[k].width, fields[k].value));
    }
  }

  /** The same, seen from a byte string in which the fields start at `start`. */
  lemma {:induction false} FieldAt(b: seq<byte>, start: nat, fields: seq<Field>, k: nat, offset: nat)
    requires HasBytes(b, start, Encode(fields)) && k < |fields| && Total(Widths(fields)[..k]) == offset
    requires fields[k].width in {1, 2, 4} && fields[k].value < Limit(fields[k].width)
    ensures Has(b, start + offset, fields[k].width, fields[k].value)
    ensures Total(Widths(fields)[..k + 1]) == offset + fields[k].width
  {
    FieldStands(fields, k);
    PartOfPart(b, start, Encode(fields), offset, Bytes(fields[k].width, fields[k].value));
    BytesStand(b, start + offset, fields[k].width, fields[k].value);
    TotalPrefix(Widths(fields), k);
  }

  // ---- The pieces ----

  /** Preamble, version and the members of the frame, ending with the number
      of its channels. */
  predicate HeadInPlace(b: seq<byte>, f: Frame) {
    && |b| >= 3 && b[..3] == [0x05, 0xb1, 5]
    && Has8(b, 3, f.firmwareVersionNonFunc) && Has8(b, 4, f.firmwareVersionMinor)
    && Has8(b, 5, f.firmwareVersionMajor)
    && Has32(b, 6, f.mainTemp) && Has32(b, 10, f.ledTemp) && Has32(b, 14, f.genericTemp)
    && Has32(b, 18, f.frameCounter) && Has32(b, 22, f.timeStamp) && Has8(b, 26, |f.channels|)
  }

  /** The members of a channel up to the length of its data. */
  predicate ChannelHeadInPlace(b: seq<byte>, c: Channel) {
    && Has32(b, 0, c.id) && Has16(b, 4, c.xRes) && Has16(b, 6, c.yRes)
    && Has32(b, 8, c.dataFormat) && Has32(b, 12, c.unit)
    && Has32(b, 16, c.integrationTime) && Has32(b, 20, c.modulationFrequency)
    && Has32(b, 24, |c.data|)
  }

  /** Those after its metadata. */
  predicate TailInPlace(b: seq<byte>, start: nat, c: Channel) {
    && Has8(b, start, c.lensIndex) && Has32(b, start + 1, c.flags)
    && Has8(b, start + 5, c.sequenceCounter) && Has32(b, start + 6, c.gain)
  }

  lemma {:induction false} PrefixLayout(b: seq<byte>)
    requires HasBytes(b, 0, Encode(PrefixFields()))
    ensures |b| >= 3 && b[..3] == [0x05, 0xb1, 5]
  {
    var fields := PrefixFields();
    assert Widths(fields)[..0] == [];
    FieldAt(b, 0, fields, 0, 0);
    FieldAt(b, 0, fields, 1, 2);
  }

  lemma {:induction false} HeadLayout(b: seq<byte>, f: Frame)
    requires HasBytes(b, 0, Encode(PrefixFields()))
    requires HasBytes(b, 3, Encode(HeadFields(f))) && Fit(HeadFields(f))
    ensures HeadInPlace(b, f)
  {
    PrefixLayout(b);
    var fields := HeadFields(f);
    assert Widths(fields)[..0] == [];
    FieldAt(b, 3, fields, 0, 0);
    FieldAt(b, 3, fields, 1, 1);
    FieldAt(b, 3, fields, 2, 2);
    FieldAt(b, 3, fields, 3, 3);
    FieldAt(b, 3, fields, 4, 7);
    FieldAt(b, 3, fields, 5, 11);
    FieldAt(b, 3, fields, 6, 15);
    FieldAt(b, 3, fields, 7, 19);
    FieldAt(b, 3, fields, 8, 23);
  }

  lemma {:induction false} ChannelHeadLayout(b: seq<byte>, c: Channel)
    requires HasBytes(b, 0, Encode(ChannelFields(c))) && Fit(ChannelFields(c))
    ensures ChannelHeadInPlace(b, c)
  {
    var fields := ChannelFields(c);
    assert Widths(fields)[..0] == [];
    FieldAt(b, 0, fields, 0, 0);
    FieldAt(b, 0, fields, 1, 4);
    FieldAt(b, 0, fields, 2, 6);
    FieldAt(b, 0, fields, 3, 8);
    FieldAt(b, 0, fields, 4, 12);
    FieldAt(b, 0, fields, 5, 16);
    FieldAt(b, 0, fields, 6, 20);
    FieldAt(b, 0, fields, 7, 24);
  }

  lemma {:induction false} TailLayout(b: seq<byte>, start: nat, c: Channel)
    requires HasBytes(b, start, Encode(TailFields(c))) && Fit(TailFields(c))
    ensures TailInPlace(b, start, c)
  {
    var fields := TailFields(c);
    assert Widths(fields)[..0] == [];
    FieldAt(b, start, fields, 0, 0);
    FieldAt(b, start, fields, 1, 1);
    FieldAt(b, start, fields, 2, 5);
    FieldAt(b, start, fields, 3, 6);
  }

  lemma {:induction false} CountLayout(b: seq<byte>, start: nat, n: nat)
    requires HasBytes(b, start, Encode(CountFields(n))) && n < UINT32_RANGE
    ensures Has32(b, start, n)
  {
    assert Widths(CountFields(n))[..0] == [];
    FieldAt(b, start, CountFields(n), 0, 0);
  }

  /** An item of metadata: its id, the length of its data, the data. */
  lemma {:induction false} MetadataLayout(m: Metadata)
    requires Fit(MetadataFields(m))
    ensures var b := OneMetadata(m);
            |b| == 8 + |m.data| && Has32(b, 0, m.id) && Has32(b, 4, |m.data|) && HasBytes(b, 8, m.data)
  {
    var b, fields := OneMetadata(m), MetadataFields(m);
    OneMetadataLength(m);
    assert Widths(fields)[..0] == [];
    assert HasBytes(b, 0, Encode(fields));
    FieldAt(b, 0, fields, 0, 0);
    FieldAt(b, 0, fields, 1, 4);
  }

  predicate ChannelPieces(b: seq<byte>, c: Channel) {
    var n := 28 + |c.data|;
    var m := n + 4 + |AllMetadata(c.metadata)|;
    && |b| == m + 10
    && HasBytes(b, 0, Encode(ChannelFields(c))) && HasBytes(b, 28, c.data)
    && HasBytes(b, n, Encode(CountFields(|c.metadata|))) && HasBytes(b, n + 4, AllMetadata(c.metadata))
    && HasBytes(b, m, Encode(TailFields(c)))
  }

  lemma {:induction false} ChannelHasPieces(c: Channel)
    ensures ChannelPieces(OneChannel(c), c)
  {
    OneChannelLength(c);
    Totals();
    TotalTwo(4, 4);
    EncodeLength(ChannelFields(c));
    assert Widths(ChannelFields(c)) == CHANNEL_WIDTHS;
    EncodeLength(CountFields(|c.metadata|));
    assert Widths(CountFields(|c.metadata|)) == [4];
  }

  /** A channel: its first members, its data, its metadata, its last members. */
  predicate ChannelInPlace(b: seq<byte>, c: Channel) {
    var n := 28 + |c.data|;
    var m := n + 4 + |AllMetadata(c.metadata)|;
    && |b| == m + 10 && ChannelHeadInPlace(b, c) && HasBytes(b, 28, c.data)
    && Has32(b, n, |c.metadata|) && HasBytes(b, n + 4, AllMetadata(c.metadata)) && TailInPlace(b, m, c)
  }

  lemma {:induction false} PiecesOfChannel(b: seq<byte>, c: Channel)
    requires ChannelPieces(b, c) && ValidChannel(c)
    ensures ChannelInPlace(b, c)
  {
    ChannelHeadLayout(b, c);
    CountLayout(b, 28 + |c.data|, |c.metadata|);
    TailLayout(b, 32 + |c.data| + |AllMetadata(c.metadata)|, c);
  }

  lemma {:induction false} ChannelLayout(c: Channel)
    requires ValidChannel(c)
    ensures ChannelInPlace(OneChannel(c), c)
  {
    ChannelHasPieces(c);
    PiecesOfChannel(OneChannel(c), c);
  }

  /** Pieces stand in order: piece k after all those before it. */
  lemma {:induction false} PieceStands<T>(write: T -> seq<byte>, xs: seq<T>, k: nat)
    requires k < |xs|
    ensures HasBytes(Joined(write, xs), |Joined(write, xs[..k])|, write(xs[k]))
  {
    var n := |xs| - 1;
    if k < n {
      PieceStands(write, xs[..n], k);
      assert xs[..n][..k] == xs[..k];
      assert HasBytes(Joined(write, xs), 0, Joined(write, xs[..n]));
      PartOfPart(Joined(write, xs), 0, Joined(write, xs[..n]), |Joined(write, xs[..k])|, write(xs[k]));
    }
  }

  /** The pieces stand one after the other from `start` on. */
  predicate InARow<T>(b: seq<byte>, start: nat, write: T -> seq<byte>, xs: seq<T>) {
    forall k :: 0 <= k < |xs| ==> HasBytes(b, start + |Joined(write, xs[..k])|, write(xs[k]))
  }

  lemma {:induction false} PiecesStand<T>(b: seq<byte>, start: nat, write: T -> seq<byte>, xs: seq<T>)
    requires HasBytes(b, start, Joined(write, xs))
    ensures InARow(b, start, write, xs)
  {
    forall k | 0 <= k < |xs| ensures HasBytes(b, start + |Joined(write, xs[..k])|, write(xs[k])) {
      PieceStands(write, xs, k);
      PartOfPart(b, start, Joined(write, xs), |Joined(write, xs[..k])|, write(xs[k]));
    }
  }

  lemma {:induction false} FramePieces(f: Frame)
    ensures var b := Serialized(f);
            var n := 27 + |AllChannels(f.channels)|;
            && |b| == n + 4 + |AllMetadata(f.metadata)|
            && HasBytes(b, 0, Encode(PrefixFields())) && HasBytes(b, 3, Encode(HeadFields(f)))
            && HasBytes(b, 27, AllChannels(f.channels)) && HasBytes(b, n, Encode(CountFields(|f.metadata|)))
            && HasBytes(b, n + 4, AllMetadata(f.metadata))
  {
    SerializedLength(f);
    Totals();
    TotalTwo(2, 1);
    TotalTwo(4, 4);
    EncodeLength(PrefixFields());
    assert Widths(PrefixFields()) == [2, 1];
    EncodeLength(HeadFields(f));
    assert Widths(HeadFields(f)) == HEAD_WIDTHS;
    EncodeLength(CountFields(|f.metadata|));
    assert Widths(CountFields(|f.metadata|)) == [4];
  }

  /** The channels one after the other from byte 27 on, the number of items of
      metadata, and the metadata. */
  predicate PiecesInPlace(b: seq<byte>, f: Frame) {
    var n := 27 + |AllChannels(f.channels)|;
    && |b| == n + 4 + |AllMetadata(f.metadata)|
    && InARow(b, 27, OneChannel, f.channels)
    && Has32(b, n, |f.metadata|)
    && InARow(b, n + 4, OneMetadata, f.metadata)
  }

  lemma {:induction false} PiecesLayout(b: seq<byte>, f: Frame)
    requires var n := 27 + |AllChannels(f.channels)|;
             && |b| == n + 4 + |AllMetadata(f.metadata)| && HasBytes(b, 27, AllChannels(f.channels))
             && Has32(b, n, |f.metadata|) && HasBytes(b, n + 4, AllMetadata(f.metadata))
    ensures PiecesInPlace(b, f)
  {
    PiecesStand(b, 27, OneChannel, f.channels);
    PiecesStand(b, 31 + |AllChannels(f.channels)|, OneMetadata, f.metadata);
  }

  /** The whole frame. */
  lemma {:induction false} Layout(f: Frame)
    requires Valid(f)
    ensures HeadInPlace(Serialized(f), f) && PiecesInPlace(Serialized(f), f)
  {
    FramePieces(f);
    HeadLayout(Serialized(f), f);
    CountLayout(Serialized(f), 27 + |AllChannels(f.channels)|, |f.metadata|);
    PiecesLayout(Serialized(f), f);
  }
}
