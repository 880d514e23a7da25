/** CRC-32 (common/crc32.c), the checksum of section 8 of RFC 1952: the
    table-driven loops against bitwise polynomial division, and the error
    detection that follows. */
module Crc32 {
  import opened Crc32Table
  import opened Gf2Register

  type byte = bv8

  const ONES: bv64 := 0xFFFFFFFF

  // ---- The code ----

  /** `char` is signed where this code usually runs: a byte reaches the
      register sign-extended to the width of `unsigned long`. */
  function SignExtend(b: byte): bv64 {
    if b & 0x80 == 0x80 then 0xFFFF_FFFF_FFFF_FF00 | b as bv64 else b as bv64
  }

  /** One step of an `unsigned long` register with the lookup table `tab`. */
  function TableStep(tab: bv8 -> bv32, crc: bv64, data: bv64): bv64 {
    ((crc >> 8) & 0x00FF_FFFF) ^ tab(((crc ^ data) & 0xFF) as bv8) as bv64
  }

  function TableByte(tab: bv8 -> bv32, crc: bv64, data: byte): bv64 {
    TableStep(tab, crc, data as bv64)
  }

  function ByteStep(tab: bv8 -> bv32): (bv64, byte) -> bv64 {
    (crc: bv64, b: byte) => TableByte(tab, crc, b)
  }

  function CrcByte(crc: bv64, data: byte): bv64 {
    TableByte(Entry, crc, data)
  }

  /** The loop shared by the two block functions; a register of any width
      and content, and an empty block, are allowed. */
  method Run(tab: bv8 -> bv32, crc: bv64, data: seq<byte>) returns (r: bv64)
    ensures r == Absorb(ByteStep(tab), crc, data)
  {
    r := crc;
    for n := 0 to |data|
      invariant r == Absorb(ByteStep(tab), crc, data[..n])
    {
      AbsorbNext(ByteStep(tab), crc, data, n);
      SignDoesNotMatter(tab, r, data[n]);
      r := TableStep(tab, r, SignExtend(data[n]));
    }
    assert data[..|data|] == data;
  }

  method CrcBlock(crc: bv64, data: seq<byte>) returns (r: bv64)
    ensures r == Absorb(ByteStep(Entry), crc, data)
  {
    r := Run(Entry, crc, data);
  }

  method CRC32ccitt(buffer: seq<byte>, length: int) returns (r: bv64)
    requires length <= |buffer|
    ensures r == Checksum(if length < 0 then [] else buffer[..length]) as bv64
  {
    var data := if length < 0 then [] else buffer[..length];
    var crc: bv64 := 0;
    crc := crc ^ ONES;
    crc := Run(Entry, crc, data);
    TableIsShifts();
    RunIsState(Entry, 0xFFFFFFFF, data);
    Complement(State(0xFFFFFFFF, data));
    r := crc ^ ONES;
  }

  // ---- What it computes ----

  function Byte(b: byte): bv32 {
    b as bv32
  }

  function Eight(r: bv32): bv32 {
    Iter(Shift, 8, r)
  }

  /** Eight shifts for each byte. */
  function Step(): (bv32, byte) -> bv32 {
    Stage(Xor, Eight, Byte)
  }

  function State(crc: bv32, data: seq<byte>): bv32 {
    Absorb(Step(), crc, data)
  }

  function Checksum(data: seq<byte>): bv32 {
    State(0xFFFFFFFF, data) ^ 0xFFFFFFFF
  }

  lemma {:induction false} Complement(c: bv32)
    ensures (c as bv64) ^ ONES == (c ^ 0xFFFFFFFF) as bv64
  {
  }

  lemma {:induction false} SignExtendFacts(b: byte, crc: bv64)
    ensures (crc ^ SignExtend(b)) & 0xFF == (crc ^ b as bv64) & 0xFF
  {
  }

  lemma {:induction false} SignDoesNotMatter(tab: bv8 -> bv32, crc: bv64, b: byte)
    ensures TableStep(tab, crc, SignExtend(b)) == TableStep(tab, crc, b as bv64)
  {
    SignExtendFacts(b, crc);
  }

  // ---- Laws of the register ----

  function Xor(a: bv32, b: bv32): bv32 {
    a ^ b
  }

  lemma {:induction false} XorFacts(a: bv32, b: bv32, d: bv32)
    ensures a ^ b == (a ^ d) ^ (b ^ d)
    ensures (a ^ b) ^ d == (a ^ d) ^ b
    ensures (a ^ b) ^ d == a ^ (b ^ d)
  {
  }

  lemma {:induction false} BitFacts(a: bv32, b: bv32)
    ensures (a ^ b) >> 1 == (a >> 1) ^ (b >> 1)
    ensures (a ^ b) & 1 == (a & 1) ^ (b & 1)
    ensures a & 1 == 0 || a & 1 == 1
    ensures b & 1 == 0 || b & 1 == 1
  {
  }

  lemma {:induction false} ShiftLinear(a: bv32, b: bv32)
    ensures Shift(a ^ b) == Shift(a) ^ Shift(b)
  {
    BitFacts(a, b);
    XorFacts(a >> 1, b >> 1, POLY);
  }

  lemma {:induction false} ShiftInjective(a: bv32, b: bv32)
    requires Shift(a) == Shift(b)
    ensures a == b
  {
  }

  lemma {:induction false} XorAssociates(a: bv32, b: bv32, c: bv32)
    ensures Xor(Xor(a, b), c) == Xor(a, Xor(b, c))
  {
  }

  lemma {:induction false} XorCommutes(a: bv32, b: bv32)
    ensures Xor(a, b) == Xor(b, a)
  {
  }

  lemma {:induction false} XorMedial(a: bv32, b: bv32, c: bv32, d: bv32)
    ensures Xor(Xor(a, b), Xor(c, d)) == Xor(Xor(a, c), Xor(b, d))
  {
    calc {
      Xor(Xor(a, b), Xor(c, d));
      { XorAssociates(a, b, Xor(c, d)); }
      Xor(a, Xor(b, Xor(c, d)));
      { XorAssociates(b, c, d); XorCommutes(b, c); XorAssociates(c, b, d); }
      Xor(a, Xor(c, Xor(b, d)));
      { XorAssociates(a, c, Xor(b, d)); }
      Xor(Xor(a, c), Xor(b, d));
    }
  }

  lemma {:induction false} XorIsMedial()
    ensures Medial(Xor)
  {
    var plus: (bv32, bv32) -> bv32 := Xor;
    forall a: bv32, b: bv32, c: bv32, d: bv32
      ensures plus(plus(a, b), plus(c, d)) == plus(plus(a, c), plus(b, d))
    {
      XorMedial(a, b, c, d);
    }
  }

  lemma {:induction false} XorIsNeutral()
    ensures Neutral(Xor, 0)
  {
  }

  lemma {:induction false} ShiftIsAdditive()
    ensures Additive(Xor, Shift) && Injective(Shift)
  {
    forall a: bv32, b: bv32
      ensures Shift(Xor(a, b)) == Xor(Shift(a), Shift(b))
    {
      ShiftLinear(a, b);
    }
    forall a: bv32, b: bv32 | Shift(a) == Shift(b)
      ensures a == b
    {
      ShiftInjective(a, b);
    }
  }

  // ---- The table step ----

  ghost predicate ShiftsEight(tab: bv8 -> bv32) {
    forall i: bv8 :: tab(i) == Iter(Shift, 8, i as bv32)
  }

  lemma {:induction false} TableIsShifts()
    ensures ShiftsEight(Entry)
  {
    forall i: bv8 ensures Entry(i) == Iter(Shift, 8, i as bv32) {
      EntryIsShift8(i);
      Shift8IsIter(i as bv32);
    }
  }

  lemma {:induction false} Shift8IsIter(r: bv32)
    ensures Shift8(r) == Iter(Shift, 8, r)
  {
    var r1 := Shift(r);
    var r2 := Shift(r1);
    var r3 := Shift(r2);
    var r4 := Shift(r3);
    var r5 := Shift(r4);
    var r6 := Shift(r5);
    var r7 := Shift(r6);
    IterEight(Shift, r, r1, r2, r3, r4, r5, r6, r7, Shift(r7));
  }

  lemma {:induction false} ShiftDouble(y: bv32)
    requires y < 0x80000000
    ensures Shift(y << 1) == y
  {
    assert (y << 1) & 1 == 0;
    assert (y << 1) >> 1 == y;
  }

  lemma {:induction false} IterAligned(y: bv32)
    requires y < 0x1000000
    ensures Iter(Shift, 8, y << 8) == y
  {
    var y1 := y << 1; var y2 := y1 << 1; var y3 := y2 << 1; var y4 := y3 << 1;
    var y5 := y4 << 1; var y6 := y5 << 1; var y7 := y6 << 1; var y8 := y7 << 1;
    Shl8(y);
    ShiftDouble(y); ShiftDouble(y1); ShiftDouble(y2); ShiftDouble(y3);
    ShiftDouble(y4); ShiftDouble(y5); ShiftDouble(y6); ShiftDouble(y7);
    IterEight(Shift, y8, y7, y6, y5, y4, y3, y2, y1, y);
  }

  lemma {:induction false} Shl8(y: bv32)
    requires y < 0x1000000
    ensures y << 1 < 0x2000000
    ensures y << 1 << 1 < 0x4000000
    ensures y << 1 << 1 << 1 < 0x8000000
    ensures y << 1 << 1 << 1 << 1 < 0x10000000
    ensures y << 1 << 1 << 1 << 1 << 1 < 0x20000000
    ensures y << 1 << 1 << 1 << 1 << 1 << 1 < 0x40000000
    ensures y << 1 << 1 << 1 << 1 << 1 << 1 << 1 < 0x80000000
    ensures y << 1 << 1 << 1 << 1 << 1 << 1 << 1 << 1 == y << 8
  {}

  lemma {:induction false} SplitBytes(x: bv32)
    ensures x == (x >> 8 << 8) ^ (x & 0xFF)
    ensures x >> 8 < 0x1000000
    ensures (x & 0xFF) as bv8 as bv32 == x & 0xFF
  {
  }

  /** Eight shifts, in one look at the low byte. */
  lemma {:induction false} IterByByte(x: bv32)
    ensures Iter(Shift, 8, x) == Xor(x >> 8, Iter(Shift, 8, x & 0xFF))
  {
    SplitBytes(x);
    ShiftIsAdditive();
    assert x == Xor(x >> 8 << 8, x & 0xFF);
    IterAligned(x >> 8);
    IterSplit(Xor, Shift, 8, x, x >> 8 << 8, x & 0xFF);
  }

  function Widen(c: bv32): bv64 {
    c as bv64
  }

  /** A table step on a 32-bit value held in a register of any width. */
  lemma {:induction false} TableStepWide(tab: bv8 -> bv32, c: bv32, b: byte)
    ensures TableByte(tab, c as bv64, b)
         == (((c ^ b as bv32) >> 8) ^ tab(((c as bv64 ^ b as bv64) & 0xFF) as bv8)) as bv64
  {
  }

  lemma {:induction false} WideIndex(c: bv32, b: byte)
    ensures ((c as bv64 ^ b as bv64) & 0xFF) as bv8 == ((c ^ b as bv32) & 0xFF) as bv8
  {
  }

  lemma {:induction false} TableStepNarrow(tab: bv8 -> bv32, c: bv32, b: byte)
    ensures TableByte(tab, Widen(c), b) == Widen(Xor((c ^ b as bv32) >> 8, tab(((c ^ b as bv32) & 0xFF) as bv8)))
  {
    WideIndex(c, b);
    TableStepWide(tab, c, b);
  }

  lemma {:induction false} TabEntry(tab: bv8 -> bv32, x: bv32)
    requires ShiftsEight(tab)
    ensures tab((x & 0xFF) as bv8) == Iter(Shift, 8, x & 0xFF)
  {
    SplitBytes(x);
  }

  lemma {:induction false} LookupIsEight(tab: bv8 -> bv32, x: bv32)
    requires ShiftsEight(tab)
    ensures Xor(x >> 8, tab((x & 0xFF) as bv8)) == Eight(x)
  {
    IterByByte(x);
    TabEntry(tab, x);
  }

  /** One table step, at any width of `unsigned long`, is eight shifts of a
      32-bit register. */
  lemma {:induction false} TableStepIsStep(tab: bv8 -> bv32, c: bv32, b: byte)
    requires ShiftsEight(tab)
    ensures TableByte(tab, Widen(c), b) == Widen(Eight(c ^ b as bv32))
  {
    var x := c ^ b as bv32;
    calc {
      TableByte(tab, Widen(c), b);
      { TableStepNarrow(tab, c, b); }
      Widen(Xor(x >> 8, tab((x & 0xFF) as bv8)));
      { LookupIsEight(tab, x); }
      Widen(Eight(x));
    }
  }

  lemma {:induction false} RunIsState(tab: bv8 -> bv32, c: bv32, data: seq<byte>)
    requires ShiftsEight(tab)
    ensures Absorb(ByteStep(tab), Widen(c), data) == Widen(State(c, data))
  {
    var step := Step();
    forall x: bv32, b: byte ensures ByteStep(tab)(Widen(x), b) == Widen(step(x, b)) {
      TableStepIsStep(tab, x, b);
      assert step(x, b) == Eight(Xor(x, Byte(b)));
    }
    AbsorbMap(step, ByteStep(tab), Widen, c, data);
  }

  /** A block may be fed in any number of pieces, down to single bytes. */
  lemma {:induction false} BlocksChain(crc: bv64, a: seq<byte>, b: seq<byte>)
    ensures Absorb(ByteStep(Entry), crc, a + b) == Absorb(ByteStep(Entry), Absorb(ByteStep(Entry), crc, a), b)
  {
    AbsorbChain(ByteStep(Entry), crc, a, b);
  }

  // ---- Error detection ----

  lemma {:induction false} XorIsCarryless()
    ensures Carryless(Xor, 0)
  {
    XorIsMedial();
    XorIsNeutral();
    var plus: (bv32, bv32) -> bv32 := Xor;
    forall a: bv32 ensures plus(a, a) == 0 {
      assert a ^ a == 0;
    }
  }

  lemma {:induction false} EightIsAdditive()
    ensures Additive(Xor, Eight) && Injective(Eight)
  {
    ShiftIsAdditive();
    forall a: bv32, b: bv32 ensures Eight(Xor(a, b)) == Xor(Eight(a), Eight(b)) {
      IterAdditive(Xor, Shift, 8, a, b);
    }
    forall a: bv32, b: bv32 | Eight(a) == Eight(b) ensures a == b {
      IterInjective(Shift, 8, a, b);
    }
  }

  function Up(d: bv32): bv32 {
    d << 8
  }

  function Limit(n: nat): bv32 {
    if n == 0 then 0 else if n == 1 then 0xFF else if n == 2 then 0xFFFF else if n == 3 then 0xFFFFFF else 0xFFFFFFFF
  }

  function Fits(n: nat, d: bv32): bool {
    d <= Limit(n)
  }

  lemma {:induction false} OneMoreByteFits(n: nat, d: bv32, s: byte, t: byte)
    requires n < 4 && Fits(n, d)
    ensures Fits(n + 1, Xor(Up(d), Xor(Byte(s), Byte(t))))
  {
    if n == 0 {
      assert Limit(n) == 0 && Limit(n + 1) == 0xFF;
    } else if n == 1 {
      assert Limit(n) == 0xFF && Limit(n + 1) == 0xFFFF;
    } else if n == 2 {
      assert Limit(n) == 0xFFFF && Limit(n + 1) == 0xFFFFFF;
    } else {
      assert Limit(n + 1) == 0xFFFFFFFF;
    }
  }

  lemma {:induction false} NothingIsLost(d: bv32, s: byte, t: byte)
    requires d < 0x1000000
    ensures Xor(Up(d), Xor(Byte(s), Byte(t))) == 0 ==> d == 0 && s == t
  {
  }

  lemma {:induction false} FourBytesAreUndone()
    ensures Undoes(Eight, Up, Fits, 4)
  {
    forall n: nat, d: bv32 | n < 4 && Fits(n, d) ensures Eight(Up(d)) == d {
      LimitFits(n, d);
      IterAligned(d);
    }
  }

  lemma {:induction false} FourBytesAreRoomy()
    ensures Roomy(Xor, Byte, 0, Up, Fits, 4)
  {
    var plus: (bv32, bv32) -> bv32, emb: byte -> bv32, up: bv32 -> bv32, fits: (nat, bv32) -> bool := Xor, Byte, Up,
      Fits;
    forall n: nat, d: bv32, s: byte, t: byte | n < 4 && fits(n, d)
      ensures fits(n + 1, plus(up(d), plus(emb(s), emb(t))))
      ensures plus(up(d), plus(emb(s), emb(t))) == 0 ==> d == 0 && s == t
    {
      OneMoreByteFits(n, d, s, t);
      LimitFits(n, d);
      NothingIsLost(d, s, t);
    }
  }

  lemma {:induction false} LimitFits(n: nat, d: bv32)
    requires n < 4 && d <= Limit(n)
    ensures d < 0x1000000
  {
  }

  /** Four bytes can be told from the register they lead to. */
  lemma {:induction false} FourBytesTell(c: bv32, p: seq<byte>, q: seq<byte>)
    requires |p| == |q| == 4 && Absorb(Step(), c, p) == Absorb(Step(), c, q)
    ensures p == q
  {
    XorIsCarryless();
    EightIsAdditive();
    FourBytesAreUndone();
    FourBytesAreRoomy();
    PackedFits(Xor, Eight, Byte, 0, Up, Fits, 4, p, q);
    PeelAll(Xor, Eight, Byte, 0, Up, c, c, p, q);
    NoDifference(Xor, 0, c, Packed(Xor, 0, Byte, Up, p, q));
  }

  lemma {:induction false} StepLaws()
    ensures StepInjective(Step()) && WindowInjective(Step(), 4)
  {
    XorIsCarryless();
    EightIsAdditive();
    StageIsInjective(Xor, Eight, Byte, 0);
    forall c: bv32, p: seq<byte>, q: seq<byte> | |p| == |q| == 4 && Absorb(Step(), c, p) == Absorb(Step(), c, q)
      ensures p == q
    {
      FourBytesTell(c, p, q);
    }
  }

  /** Two buffers of equal length that differ, but only within four
      consecutive bytes, always have different checksums. */
  lemma {:induction false} BurstChangesChecksum(a: seq<byte>, b: seq<byte>, k: nat)
    requires |a| == |b| && a != b && k <= |a|
    requires forall i :: 0 <= i < |a| && (i < k || i >= k + 4) ==> a[i] == b[i]
    ensures Checksum(a) != Checksum(b)
  {
    BurstChangesState(0xFFFFFFFF, a, b, k);
    Complements(State(0xFFFFFFFF, a), State(0xFFFFFFFF, b));
  }

  lemma {:induction false} BurstChangesState(c: bv32, a: seq<byte>, b: seq<byte>, k: nat)
    requires |a| == |b| && a != b && k <= |a|
    requires forall i :: 0 <= i < |a| && (i < k || i >= k + 4) ==> a[i] == b[i]
    ensures State(c, a) != State(c, b)
  {
    StepLaws();
    BurstDetected(Step(), 0, 4, c, a, b, k);
  }

  lemma {:induction false} Complements(x: bv32, y: bv32)
    ensures x ^ 0xFFFFFFFF == y ^ 0xFFFFFFFF ==> x == y
  {
  }

  // ---- Polynomial division ----

  const UNIT: bv32 := 0x80000000

  /** x^31, x^30, ... : the places of the message bits, low bit of a byte first. */
  function Place(k: nat): bv32 {
    match k
    case 0 => 0x01 case 1 => 0x02 case 2 => 0x04 case 3 => 0x08
    case 4 => 0x10 case 5 => 0x20 case 6 => 0x40 case _ => 0x80
  }

  function Bit(b: byte, k: nat): bool {
    b & (match k case 0 => 0x01 case 1 => 0x02 case 2 => 0x04 case 3 => 0x08
         case 4 => 0x10 case 5 => 0x20 case 6 => 0x40 case _ => 0x80) != 0
  }

  function ByteBits(b: byte): (bits: seq<bool>)
    ensures |bits| == 8
  {
    [Bit(b, 0), Bit(b, 1), Bit(b, 2), Bit(b, 3), Bit(b, 4), Bit(b, 5), Bit(b, 6), Bit(b, 7)]
  }

  /** The message as a bit string, the low bit of each byte first. */
  function Bits(data: seq<byte>): seq<bool> {
    if data == [] then [] else Bits(data[..|data| - 1]) + ByteBits(data[|data| - 1])
  }

  lemma {:induction false} PlacesShiftDown()
    ensures forall k: nat | k < 8 :: Iter(Shift, k, Place(k)) == 1
  {
    forall k: nat | k < 8 ensures Iter(Shift, k, Place(k)) == 1 {
      PlaceShiftsDown(k);
    }
  }

  lemma {:induction false} PlaceShiftsDown(k: nat)
    requires k < 8
    ensures Iter(Shift, k, Place(k)) == 1
  {
    if k > 0 {
      assert Shift(Place(k)) == Place(k - 1);
      PlaceShiftsDown(k - 1);
    }
  }

  function AddBit(p: bv32, b: byte, k: nat): bv32 {
    if Bit(b, k) then Xor(p, Place(k)) else p
  }

  lemma {:induction false} SumOfBits(b: byte)
    ensures var high := AddBit(AddBit(AddBit(AddBit(0, b, 0), b, 1), b, 2), b, 3);
            AddBit(AddBit(AddBit(AddBit(high, b, 4), b, 5), b, 6), b, 7) == Byte(b)
  {
  }

  lemma {:induction false} ByteIsPacked(b: byte)
    ensures Pack(Xor, 0, Place, ByteBits(b)) == Byte(b)
  {
    var bits := ByteBits(b);
    assert bits[..8] == bits && bits[..0] == [];
    PackNext(Xor, 0, Place, bits, 0); PackNext(Xor, 0, Place, bits, 1);
    PackNext(Xor, 0, Place, bits, 2); PackNext(Xor, 0, Place, bits, 3);
    PackNext(Xor, 0, Place, bits, 4); PackNext(Xor, 0, Place, bits, 5);
    PackNext(Xor, 0, Place, bits, 6); PackNext(Xor, 0, Place, bits, 7);
    SumOfBits(b);
  }

  /** Eight message bits, one by one, are one byte step. */
  lemma {:induction false} ByteFeed(c: bv32, b: byte)
    ensures Feed(Xor, Shift, 1, c, ByteBits(b)) == Step()(c, b)
  {
    ShiftIsAdditive();
    XorIsMedial();
    XorIsNeutral();
    PlacesShiftDown();
    FeedIsIter(Xor, Shift, 0, 1, Place, c, ByteBits(b));
    ByteIsPacked(b);
  }

  lemma {:induction false} StateIsFeed(c: bv32, data: seq<byte>)
    ensures State(c, data) == Feed(Xor, Shift, 1, c, Bits(data))
  {
    if data != [] {
      var init, last := data[..|data| - 1], data[|data| - 1];
      StateIsFeed(c, init);
      FeedChain(Xor, Shift, 1, c, Bits(init), ByteBits(last));
      ByteFeed(State(c, init), last);
    }
  }

  function Ones(n: nat): (o: seq<bool>)
    ensures |o| == n
  {
    seq(n, _ => true)
  }

  /** The register after dividing `n` one bits. */
  function OnesRegister(n: nat): bv32 {
    if n == 0 then 0 else Xor(Shift(OnesRegister(n - 1)), UNIT)
  }

  lemma {:induction false} DivideOnes(n: nat)
    ensures Divide(Xor, Shift, UNIT, 0, Ones(n)) == OnesRegister(n)
  {
    if n > 0 {
      assert Ones(n)[..n - 1] == Ones(n - 1);
      DivideOnes(n - 1);
    }
  }

  /** x^31 is the register's low bit. */
  lemma {:induction false} UnitShiftsToOne()
    ensures Iter(Shift, 31, UNIT) == 1
  {
    IterAligned(0x800000);
    IterAligned(0x8000);
    IterAligned(0x80);
    PlaceShiftsDown(7);
    IterSum(Shift, 8, 23, UNIT);
    IterSum(Shift, 8, 15, 0x800000);
    IterSum(Shift, 8, 7, 0x8000);
  }

  lemma {:induction false} ThirtyTwoOnes()
    ensures OnesRegister(32) == 0xFFFFFFFF
  {
    assert OnesRegister(2) == 0xC0000000;
    assert OnesRegister(4) == 0xF0000000;
    assert OnesRegister(6) == 0xFC000000;
    assert OnesRegister(8) == 0xFF000000;
    assert OnesRegister(10) == 0xFFC00000;
    assert OnesRegister(12) == 0xFFF00000;
    assert OnesRegister(14) == 0xFFFC0000;
    assert OnesRegister(16) == 0xFFFF0000;
    assert OnesRegister(18) == 0xFFFFC000;
    assert OnesRegister(20) == 0xFFFFF000;
    assert OnesRegister(22) == 0xFFFFFC00;
    assert OnesRegister(24) == 0xFFFFFF00;
    assert OnesRegister(26) == 0xFFFFFFC0;
    assert OnesRegister(28) == 0xFFFFFFF0;
    assert OnesRegister(30) == 0xFFFFFFFC;
  }

  lemma {:induction false} OnesPreset()
    ensures Divide(Xor, Shift, UNIT, 0, Ones(32)) == 0xFFFFFFFF
  {
    DivideOnes(32);
    ThirtyTwoOnes();
  }

  /** The remainder, on division by the generator polynomial, of the message's
      bits followed by 32 zero bits, the first 32 of all these complemented. */
  function Remainder(data: seq<byte>): bv32 {
    var bits := Bits(data);
    assert |Ones(32) + Zeros(|bits|)| == |bits + Zeros(32)|;
    Divide(Xor, Shift, UNIT, 0, XorBits(Ones(32) + Zeros(|bits|), bits + Zeros(32)))
  }

  lemma {:induction false} StateIsRemainder(data: seq<byte>)
    ensures State(0xFFFFFFFF, data) == Remainder(data)
  {
    ShiftIsAdditive();
    XorIsMedial();
    XorIsNeutral();
    UnitShiftsToOne();
    assert Lawful(Xor, Shift, 0, UNIT, 1, 32);
    OnesPreset();
    FeedIsRemainder(Xor, Shift, 0, UNIT, 1, 32, 0xFFFFFFFF, Ones(32), Bits(data));
    StateIsFeed(0xFFFFFFFF, data);
  }

  /** The checksum is the complement of that remainder. */
  lemma {:induction false} ChecksumIsRemainder(data: seq<byte>)
    ensures Checksum(data) == Remainder(data) ^ 0xFFFFFFFF
  {
    StateIsRemainder(data);
  }

  /** The 32 bits of `r` in reverse order. */
  function Mirror(r: bv32): bv32 {
    var a := (r >> 16) | (r << 16);
    var b := ((a >> 8) & 0x00FF00FF) | ((a & 0x00FF00FF) << 8);
    var c := ((b >> 4) & 0x0F0F0F0F) | ((b & 0x0F0F0F0F) << 4);
    var d := ((c >> 2) & 0x33333333) | ((c & 0x33333333) << 2);
    ((d >> 1) & 0x55555555) | ((d & 0x55555555) << 1)
  }

  /** The register's polynomial is 0x04C11DB7 with its bits in reverse order. */
  lemma {:induction false} PolynomialIsMirrored()
    ensures Mirror(0x04C11DB7) == POLY
  {
  }
}
