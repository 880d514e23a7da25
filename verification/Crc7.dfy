/** CRC-7 (common/crc7.c) with generator x^7 + x^3 + 1, most significant bit
    first: the table-driven loop against bitwise polynomial division. */
module Crc7 {
  import opened Gf2Register

  type byte = bv8

  /** Multiply by x modulo the generator; the register is the low seven bits. */
  function Shift(r: bv8): bv8 {
    if r & 0x40 == 0x40 then ((r << 1) & 0x7F) ^ 0x09 else (r << 1) & 0x7F
  }

  /** Places a message byte: its bits stand for x^6 down to x^-1 = x^6 + x^2. */
  function Place(b: byte): bv8 {
    if b & 1 == 1 then (b >> 1) ^ 0x44 else b >> 1
  }

  function Shift8(r: bv8): bv8 {
    Shift(Shift(Shift(Shift(Shift(Shift(Shift(Shift(r))))))))
  }

  // ---- The code ----

  /** The table, written in rows of sixteen. */
  function Entry(i: bv8): bv8 {
    var lo := i & 0x0f;
    match i >> 4
    case 0 => Row0(lo) case 1 => Row1(lo) case 2 => Row2(lo) case 3 => Row3(lo)
    case 4 => Row4(lo) case 5 => Row5(lo) case 6 => Row6(lo) case 7 => Row7(lo)
    case 8 => Row8(lo) case 9 => Row9(lo) case 10 => Row10(lo) case 11 => Row11(lo)
    case 12 => Row12(lo) case 13 => Row13(lo) case 14 => Row14(lo) case _ => Row15(lo)
  }

  function Row0(lo: bv8): bv8 {
    match lo
    case 0 => 0x00 case 1 => 0x09 case 2 => 0x12 case 3 => 0x1b
    case 4 => 0x24 case 5 => 0x2d case 6 => 0x36 case 7 => 0x3f
    case 8 => 0x48 case 9 => 0x41 case 10 => 0x5a case 11 => 0x53
    case 12 => 0x6c case 13 => 0x65 case 14 => 0x7e case _ => 0x77
  }

  function Row1(lo: bv8): bv8 {
    match lo
    case 0 => 0x19 case 1 => 0x10 case 2 => 0x0b case 3 => 0x02
    case 4 => 0x3d case 5 => 0x34 case 6 => 0x2f case 7 => 0x26
    case 8 => 0x51 case 9 => 0x58 case 10 => 0x43 case 11 => 0x4a
    case 12 => 0x75 case 13 => 0x7c case 14 => 0x67 case _ => 0x6e
  }

  function Row2(lo: bv8): bv8 {
    match lo
    case 0 => 0x32 case 1 => 0x3b case 2 => 0x20 case 3 => 0x29
    case 4 => 0x16 case 5 => 0x1f case 6 => 0x04 case 7 => 0x0d
    case 8 => 0x7a case 9 => 0x73 case 10 => 0x68 case 11 => 0x61
    case 12 => 0x5e case 13 => 0x57 case 14 => 0x4c case _ => 0x45
  }

  function Row3(lo: bv8): bv8 {
    match lo
    case 0 => 0x2b case 1 => 0x22 case 2 => 0x39 case 3 => 0x30
    case 4 => 0x0f case 5 => 0x06 case 6 => 0x1d case 7 => 0x14
    case 8 => 0x63 case 9 => 0x6a case 10 => 0x71 case 11 => 0x78
    case 12 => 0x47 case 13 => 0x4e case 14 => 0x55 case _ => 0x5c
  }

  function Row4(lo: bv8): bv8 {
    match lo
    case 0 => 0x64 case 1 => 0x6d case 2 => 0x76 case 3 => 0x7f
    case 4 => 0x40 case 5 => 0x49 case 6 => 0x52 case 7 => 0x5b
    case 8 => 0x2c case 9 => 0x25 case 10 => 0x3e case 11 => 0x37
    case 12 => 0x08 case 13 => 0x01 case 14 => 0x1a case _ => 0x13
  }

  function Row5(lo: bv8): bv8 {
    match lo
    case 0 => 0x7d case 1 => 0x74 case 2 => 0x6f case 3 => 0x66
    case 4 => 0x59 case 5 => 0x50 case 6 => 0x4b case 7 => 0x42
    case 8 => 0x35 case 9 => 0x3c case 10 => 0x27 case 11 => 0x2e
    case 12 => 0x11 case 13 => 0x18 case 14 => 0x03 case _ => 0x0a
  }

  function Row6(lo: bv8): bv8 {
    match lo
    case 0 => 0x56 case 1 => 0x5f case 2 => 0x44 case 3 => 0x4d
    case 4 => 0x72 case 5 => 0x7b case 6 => 0x60 case 7 => 0x69
    case 8 => 0x1e case 9 => 0x17 case 10 => 0x0c case 11 => 0x05
    case 12 => 0x3a case 13 => 0x33 case 14 => 0x28 case _ => 0x21
  }

  function Row7(lo: bv8): bv8 {
    match lo
    case 0 => 0x4f case 1 => 0x46 case 2 => 0x5d case 3 => 0x54
    case 4 => 0x6b case 5 => 0x62 case 6 => 0x79 case 7 => 0x70
    case 8 => 0x07 case 9 => 0x0e case 10 => 0x15 case 11 => 0x1c
    case 12 => 0x23 case 13 => 0x2a case 14 => 0x31 case _ => 0x38
  }

  function Row8(lo: bv8): bv8 {
    match lo
    case 0 => 0x41 case 1 => 0x48 case 2 => 0x53 case 3 => 0x5a
    case 4 => 0x65 case 5 => 0x6c case 6 => 0x77 case 7 => 0x7e
    case 8 => 0x09 case 9 => 0x00 case 10 => 0x1b case 11 => 0x12
    case 12 => 0x2d case 13 => 0x24 case 14 => 0x3f case _ => 0x36
  }

  function Row9(lo: bv8): bv8 {
    match lo
    case 0 => 0x58 case 1 => 0x51 case 2 => 0x4a case 3 => 0x43
    case 4 => 0x7c case 5 => 0x75 case 6 => 0x6e case 7 => 0x67
    case 8 => 0x10 case 9 => 0x19 case 10 => 0x02 case 11 => 0x0b
    case 12 => 0x34 case 13 => 0x3d case 14 => 0x26 case _ => 0x2f
  }

  function Row10(lo: bv8): bv8 {
    match lo
    case 0 => 0x73 case 1 => 0x7a case 2 => 0x61 case 3 => 0x68
    case 4 => 0x57 case 5 => 0x5e case 6 => 0x45 case 7 => 0x4c
    case 8 => 0x3b case 9 => 0x32 case 10 => 0x29 case 11 => 0x20
    case 12 => 0x1f case 13 => 0x16 case 14 => 0x0d case _ => 0x04
  }

  function Row11(lo: bv8): bv8 {
    match lo
    case 0 => 0x6a case 1 => 0x63 case 2 => 0x78 case 3 => 0x71
    case 4 => 0x4e case 5 => 0x47 case 6 => 0x5c case 7 => 0x55
    case 8 => 0x22 case 9 => 0x2b case 10 => 0x30 case 11 => 0x39
    case 12 => 0x06 case 13 => 0x0f case 14 => 0x14 case _ => 0x1d
  }

  function Row12(lo: bv8): bv8 {
    match lo
    case 0 => 0x25 case 1 => 0x2c case 2 => 0x37 case 3 => 0x3e
    case 4 => 0x01 case 5 => 0x08 case 6 => 0x13 case 7 => 0x1a
    case 8 => 0x6d case 9 => 0x64 case 10 => 0x7f case 11 => 0x76
    case 12 => 0x49 case 13 => 0x40 case 14 => 0x5b case _ => 0x52
  }

  function Row13(lo: bv8): bv8 {
    match lo
    case 0 => 0x3c case 1 => 0x35 case 2 => 0x2e case 3 => 0x27
    case 4 => 0x18 case 5 => 0x11 case 6 => 0x0a case 7 => 0x03
    case 8 => 0x74 case 9 => 0x7d case 10 => 0x66 case 11 => 0x6f
    case 12 => 0x50 case 13 => 0x59 case 14 => 0x42 case _ => 0x4b
  }

  function Row14(lo: bv8): bv8 {
    match lo
    case 0 => 0x17 case 1 => 0x1e case 2 => 0x05 case 3 => 0x0c
    case 4 => 0x33 case 5 => 0x3a case 6 => 0x21 case 7 => 0x28
    case 8 => 0x5f case 9 => 0x56 case 10 => 0x4d case 11 => 0x44
    case 12 => 0x7b case 13 => 0x72 case 14 => 0x69 case _ => 0x60
  }

  function Row15(lo: bv8): bv8 {
    match lo
    case 0 => 0x0e case 1 => 0x07 case 2 => 0x1c case 3 => 0x15
    case 4 => 0x2a case 5 => 0x23 case 6 => 0x38 case 7 => 0x31
    case 8 => 0x46 case 9 => 0x4f case 10 => 0x54 case 11 => 0x5d
    case 12 => 0x62 case 13 => 0x6b case 14 => 0x70 case _ => 0x79
  }

  /** The table index, computed in `int`: it may exceed eight bits. */
  function Index(crc: bv8, data: byte): bv16 {
    ((crc as bv16) << 1) ^ data as bv16
  }

  function Crc7Byte(crc: bv8, data: byte): (r: bv8)
    requires crc < 0x80
    ensures r < 0x80
  {
    EntryIsShift8(Index(crc, data) as bv8);
    Entry(Index(crc, data) as bv8)
  }

  method Crc7(buffer: seq<byte>, length: int) returns (crc: bv8)
    requires length <= |buffer|
    ensures crc < 0x80
    ensures crc == Remainder(if length < 0 then [] else buffer[..length])
  {
    crc := 0;
    var i := 0;
    ghost var data := if length < 0 then [] else buffer[..length];
    while i < length
      invariant 0 <= i <= |data|
      invariant crc < 0x80 && crc == State(data[..i])
    {
      AbsorbNext(Step(), 0, data, i);
      EntryIsStep(crc, buffer[i]);
      crc := Entry(Index(crc, buffer[i]) as bv8);
      i := i + 1;
    }
    assert data[..i] == data;
    StateIsRemainder(data);
  }

  // ---- The index ----

  /** A running value that is a CRC-7 keeps every index inside the table; no
      other running value does, whatever the data byte. */
  lemma {:induction false} IndexInRange(crc: bv8, data: byte)
    ensures Index(crc, data) < 0x100 <==> crc < 0x80
  {
  }

  // ---- The table ----

  lemma {:induction false} EntryIsShift8(i: bv8)
    ensures Entry(i) == Shift8(Place(i))
    ensures Entry(i) < 0x80
  {
    match i >> 5
    case 0 => Part0IsShift8(i);
    case 1 => Part1IsShift8(i);
    case 2 => Part2IsShift8(i);
    case 3 => Part3IsShift8(i);
    case 4 => Part4IsShift8(i);
    case 5 => Part5IsShift8(i);
    case 6 => Part6IsShift8(i);
    case _ => Part7IsShift8(i);
  }

  lemma {:induction false} Part0IsShift8(i: bv8)
    requires i >> 5 == 0
    ensures Entry(i) == Shift8(Place(i))
    ensures Entry(i) < 0x80
  {
  }

  lemma {:induction false} Part1IsShift8(i: bv8)
    requires i >> 5 == 1
    ensures Entry(i) == Shift8(Place(i))
    ensures Entry(i) < 0x80
  {
  }

  lemma {:induction false} Part2IsShift8(i: bv8)
    requires i >> 5 == 2
    ensures Entry(i) == Shift8(Place(i))
    ensures Entry(i) < 0x80
  {
  }

  lemma {:induction false} Part3IsShift8(i: bv8)
    requires i >> 5 == 3
    ensures Entry(i) == Shift8(Place(i))
    ensures Entry(i) < 0x80
  {
  }

  lemma {:induction false} Part4IsShift8(i: bv8)
    requires i >> 5 == 4
    ensures Entry(i) == Shift8(Place(i))
    ensures Entry(i) < 0x80
  {
  }

  lemma {:induction false} Part5IsShift8(i: bv8)
    requires i >> 5 == 5
    ensures Entry(i) == Shift8(Place(i))
    ensures Entry(i) < 0x80
  {
  }

  lemma {:induction false} Part6IsShift8(i: bv8)
    requires i >> 5 == 6
    ensures Entry(i) == Shift8(Place(i))
    ensures Entry(i) < 0x80
  {
  }

  lemma {:induction false} Part7IsShift8(i: bv8)
    requires i >> 5 == 7
    ensures Entry(i) == Shift8(Place(i))
    ensures Entry(i) < 0x80
  {
  }

  // ---- Laws of the register ----

  function Xor(a: bv8, b: bv8): bv8 {
    a ^ b
  }

  lemma {:induction false} BitFacts(a: bv8, b: bv8)
    ensures ((a ^ b) << 1) & 0x7F == ((a << 1) & 0x7F) ^ ((b << 1) & 0x7F)
    ensures (a ^ b) & 0x40 == (a & 0x40) ^ (b & 0x40)
    ensures a & 0x40 == 0 || a & 0x40 == 0x40
    ensures b & 0x40 == 0 || b & 0x40 == 0x40
  {
  }

  lemma {:induction false} ShiftLinear(a: bv8, b: bv8)
    ensures Shift(a ^ b) == Shift(a) ^ Shift(b)
  {
    BitFacts(a, b);
  }

  lemma {:induction false} ShiftIsAdditive()
    ensures Additive(Xor, Shift)
  {
    forall a: bv8, b: bv8 ensures Shift(Xor(a, b)) == Xor(Shift(a), Shift(b)) {
      ShiftLinear(a, b);
    }
  }

  lemma {:induction false} XorAssociates(a: bv8, b: bv8, c: bv8)
    ensures Xor(Xor(a, b), c) == Xor(a, Xor(b, c))
  {
  }

  lemma {:induction false} XorCommutes(a: bv8, b: bv8)
    ensures Xor(a, b) == Xor(b, a)
  {
  }

  lemma {:induction false} XorMedial(a: bv8, b: bv8, c: bv8, d: bv8)
    ensures Xor(Xor(a, b), Xor(c, d)) == Xor(Xor(a, c), Xor(b, d))
  {
    calc {
      Xor(Xor(a, b), Xor(c, d));
      { XorAssociates(a, b, Xor(c, d)); }
      Xor(a, Xor(b, Xor(c, d)));
      { XorAssociates(b, c, d); XorCommutes(b, c); XorAssociates(c, b, d); }
      Xor(a, Xor(c, Xor(b, d)));
      { XorAssociates(a, c, Xor(b, d)); }
      Xor(Xor(a, c), Xor(b, d));
    }
  }

  lemma {:induction false} XorIsMedial()
    ensures Medial(Xor)
  {
    var plus: (bv8, bv8) -> bv8 := Xor;
    forall a: bv8, b: bv8, c: bv8, d: bv8
      ensures plus(plus(a, b), plus(c, d)) == plus(plus(a, c), plus(b, d))
    {
      XorMedial(a, b, c, d);
    }
  }

  // ---- What the loop computes ----

  function Eight(r: bv8): bv8 {
    Iter(Shift, 8, r)
  }

  function Step(): (bv8, byte) -> bv8 {
    Stage(Xor, Eight, Place)
  }

  function State(data: seq<byte>): bv8 {
    Absorb(Step(), 0, data)
  }

  lemma {:induction false} Shift8IsEight(r: bv8)
    ensures Shift8(r) == Eight(r)
  {
    var r1 := Shift(r);
    var r2 := Shift(r1);
    var r3 := Shift(r2);
    var r4 := Shift(r3);
    var r5 := Shift(r4);
    var r6 := Shift(r5);
    var r7 := Shift(r6);
    IterEight(Shift, r, r1, r2, r3, r4, r5, r6, r7, Shift(r7));
  }

  lemma {:induction false} PlaceShifted(crc: bv8, data: byte)
    requires crc < 0x80
    ensures Place((crc << 1) ^ data) == Xor(crc, Place(data))
  {
  }

  lemma {:induction false} EntryIsStep(crc: bv8, data: byte)
    requires crc < 0x80
    ensures Index(crc, data) < 0x100
    ensures Entry(Index(crc, data) as bv8) == Step()(crc, data) < 0x80
  {
    var i := Index(crc, data) as bv8;
    EntryIsShift8(i);
    Shift8IsEight(Place(i));
    PlaceShifted(crc, data);
  }

  function Bit(b: byte, k: nat): bool {
    b & (match k case 0 => 0x80 case 1 => 0x40 case 2 => 0x20 case 3 => 0x10
         case 4 => 0x08 case 5 => 0x04 case 6 => 0x02 case _ => 0x01) != 0
  }

  function ByteBits(b: byte): (bits: seq<bool>)
    ensures |bits| == 8
  {
    [Bit(b, 0), Bit(b, 1), Bit(b, 2), Bit(b, 3), Bit(b, 4), Bit(b, 5), Bit(b, 6), Bit(b, 7)]
  }

  /** The message as a bit string, the high bit of each byte first. */
  function Bits(data: seq<byte>): seq<bool> {
    if data == [] then [] else Bits(data[..|data| - 1]) + ByteBits(data[|data| - 1])
  }

  function Basis(k: nat): bv8 {
    match k
    case 0 => 0x40 case 1 => 0x20 case 2 => 0x10 case 3 => 0x08
    case 4 => 0x04 case 5 => 0x02 case 6 => 0x01 case _ => 0x44
  }

  lemma {:induction false} BasisShifts(k: nat)
    requires k < 8
    ensures Iter(Shift, k, Basis(k)) == 0x40
  {
    if k > 0 {
      assert Shift(Basis(k)) == Basis(k - 1);
      BasisShifts(k - 1);
    }
  }

  function AddBit(p: bv8, b: byte, k: nat): bv8 {
    if Bit(b, k) then Xor(p, Basis(k)) else p
  }

  lemma {:induction false} SumOfBits(b: byte)
    ensures var high := AddBit(AddBit(AddBit(AddBit(0, b, 0), b, 1), b, 2), b, 3);
            AddBit(AddBit(AddBit(AddBit(high, b, 4), b, 5), b, 6), b, 7) == Place(b)
  {
    var high := AddBit(AddBit(AddBit(AddBit(0, b, 0), b, 1), b, 2), b, 3);
    assert high == (b >> 1) & 0x78;
    assert AddBit(AddBit(AddBit(high, b, 4), b, 5), b, 6) == b >> 1;
  }

  lemma {:induction false} ByteIsPacked(b: byte)
    ensures Pack(Xor, 0, Basis, ByteBits(b)) == Place(b)
  {
    var bits := ByteBits(b);
    assert bits[..8] == bits && bits[..0] == [];
    PackNext(Xor, 0, Basis, bits, 0); PackNext(Xor, 0, Basis, bits, 1);
    PackNext(Xor, 0, Basis, bits, 2); PackNext(Xor, 0, Basis, bits, 3);
    PackNext(Xor, 0, Basis, bits, 4); PackNext(Xor, 0, Basis, bits, 5);
    PackNext(Xor, 0, Basis, bits, 6); PackNext(Xor, 0, Basis, bits, 7);
    SumOfBits(b);
  }

  /** Eight message bits, one by one, are one byte step. */
  lemma {:induction false} ByteFeed(c: bv8, b: byte)
    ensures Feed(Xor, Shift, 0x40, c, ByteBits(b)) == Step()(c, b)
  {
    ShiftIsAdditive();
    XorIsMedial();
    forall k: nat | k < 8 ensures Iter(Shift, k, Basis(k)) == 0x40 {
      BasisShifts(k);
    }
    FeedIsIter(Xor, Shift, 0, 0x40, Basis, c, ByteBits(b));
    ByteIsPacked(b);
  }

  lemma {:induction false} StateIsFeed(data: seq<byte>)
    ensures State(data) == Feed(Xor, Shift, 0x40, 0, Bits(data))
  {
    if data != [] {
      var init, last := data[..|data| - 1], data[|data| - 1];
      StateIsFeed(init);
      FeedChain(Xor, Shift, 0x40, 0, Bits(init), ByteBits(last));
      ByteFeed(State(init), last);
    }
  }

  /** The remainder, on division by x^7 + x^3 + 1, of the message's bits
      followed by seven zero bits. */
  function Remainder(data: seq<byte>): bv8 {
    Divide(Xor, Shift, 1, 0, Bits(data) + Zeros(7))
  }

  lemma {:induction false} UnitShiftsToTop()
    ensures Iter(Shift, 6, 1) == 0x40
  {
    assert Iter(Shift, 6, 1) == Iter(Shift, 5, 2) == Iter(Shift, 4, 4) == Iter(Shift, 3, 8)
        == Iter(Shift, 2, 16) == Iter(Shift, 1, 32);
  }

  lemma {:induction false} FeedIsLongDivision(bits: seq<bool>)
    ensures Feed(Xor, Shift, 0x40, 0, bits) == Divide(Xor, Shift, 1, 0, bits + Zeros(7))
  {
    ShiftIsAdditive();
    XorIsMedial();
    UnitShiftsToTop();
    FeedIsDivide(Xor, Shift, 0, 1, 0x40, 7, bits);
    DivideChain(Xor, Shift, 1, 0, bits, Zeros(7));
    DivideZeros(Xor, Shift, 1, Divide(Xor, Shift, 1, 0, bits), 7);
  }

  lemma {:induction false} StateIsRemainder(data: seq<byte>)
    ensures State(data) == Remainder(data)
  {
    StateIsFeed(data);
    FeedIsLongDivision(Bits(data));
  }
}
