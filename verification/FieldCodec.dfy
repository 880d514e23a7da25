/** Numbers and runs of numbers of fixed width as bytes, and pieces written one
    after the other: what the serialized formats of this project are made of. */
module FieldCodec {
  import opened Types

  // ---- Numbers, low byte first ----

  function Bytes(width: nat, v: nat): (r: seq<byte>)
    ensures |r| == width
  {
    if width == 0 then [] else [v % 0x100] + Bytes(width - 1, v / 0x100)
  }

  function Value(b: seq<byte>): nat {
    if b == [] then 0 else b[0] + 0x100 * Value(b[1..])
  }

  /** One more than the largest number of that width; widths go up to 4. */
  function Limit(width: nat): nat {
    match width
    case 0 => 1
    case 1 => 0x100
    case 2 => 0x1_0000
    case 3 => 0x100_0000
    case 4 => UINT32_RANGE
    case _ => 0
  }

  lemma {:induction false} ValueOfBytes(width: nat, v: nat)
    requires v < Limit(width)
    ensures Value(Bytes(width, v)) == v
  {
    if width > 0 {
      ValueOfBytes(width - 1, v / 0x100);
      assert Bytes(width, v)[1..] == Bytes(width - 1, v / 0x100);
    }
  }

  /** The low byte comes first. */
  lemma {:induction false} BytesAre(v: nat)
    requires v < UINT32_RANGE
    ensures Bytes(1, v % 0x100) == [v % 0x100]
    ensures v < 0x1_0000 ==> Bytes(2, v) == [v % 0x100, v / 0x100]
    ensures Bytes(4, v) == [v % 0x100, v / 0x100 % 0x100, v / 0x1_0000 % 0x100, v / 0x100_0000]
  {
    var a, b, c := v / 0x100, v / 0x1_0000, v / 0x100_0000;
    assert a / 0x100 == b && b / 0x100 == c && c / 0x100 == 0;
    assert Bytes(0, c / 0x100) == [];
    assert Bytes(1, c) == [c] && Bytes(2, b) == [b % 0x100] + Bytes(1, c);
    assert Bytes(3, a) == [a % 0x100] + Bytes(2, b);
    if v < 0x1_0000 {
      assert Bytes(1, a) == [a];
    }
  }

  lemma {:induction false} ValueIs(b: seq<byte>)
    ensures |b| == 2 ==> Value(b) == b[0] + 0x100 * (b[1] as nat)
    ensures |b| == 4 ==> Value(b) == b[0] + 0x100 * (b[1] as nat) + 0x1_0000 * (b[2] as nat)
                                     + 0x100_0000 * (b[3] as nat)
  {
    if |b| == 2 {
      assert b[1..] == [b[1]] && [b[1]][1..] == [];
      assert Value([b[1]]) == b[1];
    } else if |b| == 4 {
      assert b[1..] == [b[1], b[2], b[3]] && [b[1], b[2], b[3]][1..] == [b[2], b[3]];
      assert [b[2], b[3]][1..] == [b[3]] && [b[3]][1..] == [];
      assert Value([b[3]]) == b[3];
      assert Value([b[2], b[3]]) == b[2] + 0x100 * (b[3] as nat);
    }
  }

  // ---- Runs of fields of fixed width ----

  datatype Field = Field(width: nat, value: nat)

  function Encode(fields: seq<Field>): seq<byte> {
    if fields == []
      then [] else Encode(fields[..|fields| - 1]) + Bytes(fields[|fields| - 1].width, fields[|fields| - 1].value)
  }

  predicate Fit(fields: seq<Field>) {
    forall k :: 0 <= k < |fields| ==> fields[k].value < Limit(fields[k].width)
  }

  function Widths(fields: seq<Field>): (w: seq<nat>)
    ensures |w| == |fields| && forall k :: 0 <= k < |w| ==> w[k] == fields[k].width
  {
    seq(|fields|, k requires 0 <= k < |fields| => fields[k].width)
  }

  function Total(widths: seq<nat>): nat {
    if widths == [] then 0 else Total(widths[..|widths| - 1]) + widths[|widths| - 1]
  }

  /** The numbers at the front of `b`. */
  function Decode(widths: seq<nat>, b: seq<byte>): (r: seq<nat>)
    requires Total(widths) <= |b|
    ensures |r| == |widths|
  {
    if widths == [] then []
    else
      var n := |widths| - 1;
      Decode(widths[..n], b) + [Value(b[Total(widths[..n])..Total(widths)])]
  }

  function Values(fields: seq<Field>): (v: seq<nat>)
    ensures |v| == |fields| && forall k :: 0 <= k < |v| ==> v[k] == fields[k].value
  {
    seq(|fields|, k requires 0 <= k < |fields| => fields[k].value)
  }

  lemma {:induction false} EncodeLength(fields: seq<Field>)
    ensures |Encode(fields)| == Total(Widths(fields))
  {
    if fields != [] {
      var n := |fields| - 1;
      EncodeLength(fields[..n]);
      assert Widths(fields)[..n] == Widths(fields[..n]);
    }
  }

  lemma {:induction false} Cut(a: seq<byte>, b: seq<byte>, rest: seq<byte>)
    ensures (a + (b + rest))[|a|..|a| + |b|] == b
  {
  }

  lemma {:induction false} Associate(a: seq<byte>, b: seq<byte>, c: seq<byte>)
    ensures (a + b) + c == a + (b + c)
  {
  }

  lemma {:induction false} ValueAt(width: nat, v: nat, head: seq<byte>, rest: seq<byte>)
    requires v < Limit(width)
    ensures Value((head + (Bytes(width, v) + rest))[|head|..|head| + width]) == v
  {
    Cut(head, Bytes(width, v), rest);
    ValueOfBytes(width, v);
  }

  /** One more field, written and read. */
  lemma {:induction false} DecodeNext(fields: seq<Field>, head: seq<Field>, last: Field, rest: seq<byte>)
    requires fields == head + [last] && last.value < Limit(last.width)
    requires Total(Widths(head)) == |Encode(head)|
    requires Decode(Widths(head), Encode(head) + (Bytes(last.width, last.value) + rest)) == Values(head)
    ensures Total(Widths(fields)) == |Encode(fields)|
    ensures Decode(Widths(fields), Encode(fields) + rest) == Values(fields)
  {
    var b := Encode(head) + (Bytes(last.width, last.value) + rest);
    EncodeAppend(head, last.width, last.value);
    Associate(Encode(head), Bytes(last.width, last.value), rest);
    assert Widths(fields) == Widths(head) + [last.width];
    ValueAt(last.width, last.value, Encode(head), rest);
    assert Values(fields) == Values(head) + [last.value];
  }

  /** Reading what was written gives the numbers back, whatever follows. */
  lemma {:induction false} DecodeEncode(fields: seq<Field>, rest: seq<byte>)
    requires Fit(fields)
    ensures Total(Widths(fields)) == |Encode(fields)|
    ensures Decode(Widths(fields), Encode(fields) + rest) == Values(fields)
  {
    if fields != [] {
      var n := |fields| - 1;
      var last := fields[n];
      DecodeEncode(fields[..n], Bytes(last.width, last.value) + rest);
      DecodeNext(fields, fields[..n], last, rest);
    }
  }

  lemma {:induction false} EncodeAppend(fields: seq<Field>, width: nat, v: nat)
    ensures Encode(fields + [Field(width, v)]) == Encode(fields) + Bytes(width, v)
  {
    assert (fields + [Field(width, v)])[..|fields|] == fields;
  }

  lemma {:induction false} TotalFour(a: nat, b: nat, c: nat, d: nat)
    ensures Total([a, b, c, d]) == a + b + c + d
  {
    assert [a][..0] == [] && [a, b][..1] == [a] && [a, b, c][..2] == [a, b] && [a, b, c, d][..3] == [a, b, c];
    assert Total([a]) == a;
    assert Total([a, b]) == a + b;
    assert Total([a, b, c]) == a + b + c;
  }

  lemma {:induction false} TotalTwo(a: nat, b: nat)
    ensures Total([a, b]) == a + b && Total([a]) == a
  {
    assert [a][..0] == [] && [a, b][..1] == [a];
    assert Total([a]) == a;
  }

  lemma {:induction false} TotalAdd(a: seq<nat>, b: seq<nat>)
    ensures Total(a + b) == Total(a) + Total(b)
  {
    if b == [] {
      assert a + b == a;
    } else {
      assert (a + b)[..|a + b| - 1] == a + b[..|b| - 1];
      TotalAdd(a, b[..|b| - 1]);
    }
  }

  // ---- Pieces ----

  /** Pieces written one after the other. */
  function Joined<T>(write: T -> seq<byte>, xs: seq<T>): seq<byte> {
    if xs == [] then [] else Joined(write, xs[..|xs| - 1]) + write(xs[|xs| - 1])
  }

  datatype Status = OutOfMemory | InvalidParameter | InvalidVersion

  /** `Overrun`: the reader goes on past the end of its input. `Elsewhere`: the
      frame is compressed or of an older version, which other code reads. */
  datatype Result<+T> = Read(value: T, rest: seq<byte>) | Failed(status: Status) | Overrun | Elsewhere

  /** n pieces, one after the other; the first failure counts. */
  function ReadMany<T>(read: seq<byte> -> Result<T>, n: nat, b: seq<byte>): Result<seq<T>> {
    if n == 0 then Read([], b)
    else
      match read(b)
      case Failed(status) => Failed(status)
      case Overrun => Overrun
      case Elsewhere => Elsewhere
      case Read(x, rest) =>
        match ReadMany(read, n - 1, rest)
        case Read(xs, end) => Read([x] + xs, end)
        case Failed(status) => Failed(status)
        case Overrun => Overrun
        case Elsewhere => Elsewhere
  }

  lemma {:induction false} JoinedFirst<T>(write: T -> seq<byte>, xs: seq<T>)
    requires xs != []
    ensures Joined(write, xs) == write(xs[0]) + Joined(write, xs[1..])
  {
    var n := |xs| - 1;
    if n == 0 {
      assert xs[..0] == [] && xs[1..] == [];
    } else {
      JoinedFirst(write, xs[..n]);
      assert xs[..n][1..] == xs[1..][..n - 1];
      Associate(write(xs[0]), Joined(write, xs[1..][..n - 1]), write(xs[n]));
    }
  }

  /** If each piece can be read back, so can all of them. */
  lemma {:induction false} ReadManyBack<T>(write: T -> seq<byte>, read: seq<byte> -> Result<T>, xs: seq<T>,
                                           rest: seq<byte>)
    requires forall k: nat, more: seq<byte> :: k < |xs| ==> read(write(xs[k]) + more) == Read(xs[k], more)
    ensures ReadMany(read, |xs|, Joined(write, xs) + rest) == Read(xs, rest)
  {
    if xs == [] {
      assert Joined(write, xs) + rest == rest;
    } else {
      JoinedFirst(write, xs);
      Associate(write(xs[0]), Joined(write, xs[1..]), rest);
      assert read(write(xs[0]) + (Joined(write, xs[1..]) + rest)) == Read(xs[0], Joined(write, xs[1..]) + rest);
      ReadManyBack(write, read, xs[1..], rest);
      assert [xs[0]] + xs[1..] == xs;
    }
  }

  /** What comes after a run of fields, and after the data that follows it. */
  lemma {:induction false} AfterFields(fields: seq<Field>, data: seq<byte>, tail: seq<byte>)
    ensures var b := Encode(fields) + data + tail;
            var n := |Encode(fields)|;
            && b == Encode(fields) + (data + tail) && b[n..] == data + tail
            && b[n..][..|data|] == data && b[n..][|data|..] == tail
  {
  }
}
