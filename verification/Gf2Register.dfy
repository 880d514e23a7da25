/** Shift registers over GF(2), whatever their width: `plus` adds two
    registers bit by bit and `shift` multiplies by x modulo the generator
    polynomial. Both checksums of the library are instances. */
module Gf2Register {

  function Iter<T>(f: T -> T, n: nat, x: T): T {
    if n == 0 then x else Iter(f, n - 1, f(x))
  }

  ghost predicate Additive<T(!new)>(plus: (T, T) -> T, f: T -> T) {
    forall a, b {:trigger f(plus(a, b))} :: f(plus(a, b)) == plus(f(a), f(b))
  }

  ghost predicate Injective<T(!new)>(f: T -> T) {
    forall a, b {:trigger f(a), f(b)} :: f(a) == f(b) ==> a == b
  }

  ghost predicate Medial<T(!new)>(plus: (T, T) -> T) {
    forall a, b, c, d {:trigger plus(plus(a, b), plus(c, d))} ::
      plus(plus(a, b), plus(c, d)) == plus(plus(a, c), plus(b, d))
  }

  ghost predicate Neutral<T(!new)>(plus: (T, T) -> T, zero: T) {
    forall a {:trigger plus(a, zero)} {:trigger plus(zero, a)} :: plus(a, zero) == a && plus(zero, a) == a
  }

  lemma {:induction false} IterAdditive<T(!new)>(plus: (T, T) -> T, f: T -> T, n: nat, a: T, b: T)
    requires Additive(plus, f)
    ensures Iter(f, n, plus(a, b)) == plus(Iter(f, n, a), Iter(f, n, b))
  {
    if n > 0 {
      IterAdditive(plus, f, n - 1, f(a), f(b));
    }
  }

  lemma {:induction false} IterSplit<T(!new)>(plus: (T, T) -> T, f: T -> T, n: nat, x: T, hi: T, lo: T)
    requires Additive(plus, f) && x == plus(hi, lo)
    ensures Iter(f, n, x) == plus(Iter(f, n, hi), Iter(f, n, lo))
  {
    IterAdditive(plus, f, n, hi, lo);
  }

  lemma {:induction false} IterInjective<T(!new)>(f: T -> T, n: nat, a: T, b: T)
    requires Injective(f)
    requires Iter(f, n, a) == Iter(f, n, b)
    ensures a == b
  {
    if n > 0 {
      IterInjective(f, n - 1, f(a), f(b));
    }
  }

  lemma {:induction false} IterSum<T>(f: T -> T, n: nat, m: nat, x: T)
    ensures Iter(f, n + m, x) == Iter(f, m, Iter(f, n, x))
  {
    if n > 0 {
      IterSum(f, n - 1, m, f(x));
    }
  }

  /** Eight steps, spelled out. */
  lemma {:induction false} IterEight<T>(f: T -> T, x0: T, x1: T, x2: T, x3: T, x4: T, x5: T, x6: T, x7: T, x8: T)
    requires f(x0) == x1 && f(x1) == x2 && f(x2) == x3 && f(x3) == x4
    requires f(x4) == x5 && f(x5) == x6 && f(x6) == x7 && f(x7) == x8
    ensures Iter(f, 8, x0) == x8
  {
    assert Iter(f, 8, x0) == Iter(f, 7, x1) == Iter(f, 6, x2) == Iter(f, 5, x3) == Iter(f, 4, x4)
        == Iter(f, 3, x5) == Iter(f, 2, x6) == Iter(f, 1, x7) == x8;
  }

  // ---- Two ways to divide a bit string ----

  /** School long division: each message bit enters at x^0 and one multiple of
      the generator is subtracted when a bit leaves the register. */
  function Divide<T>(plus: (T, T) -> T, shift: T -> T, unit: T, r: T, bits: seq<bool>): T {
    if bits == [] then r
    else
      var s := shift(Divide(plus, shift, unit, r, bits[..|bits| - 1]));
      if bits[|bits| - 1] then plus(s, unit) else s
  }

  /** The form used in practice: each message bit is added at the outgoing end,
      so that no zero bits need be appended to the message. */
  function Feed<T>(plus: (T, T) -> T, shift: T -> T, top: T, r: T, bits: seq<bool>): T {
    if bits == [] then r
    else
      var s := Feed(plus, shift, top, r, bits[..|bits| - 1]);
      shift(if bits[|bits| - 1] then plus(s, top) else s)
  }

  function Zeros(n: nat): (z: seq<bool>)
    ensures |z| == n
  {
    seq(n, _ => false)
  }

  function XorBits(a: seq<bool>, b: seq<bool>): (c: seq<bool>)
    requires |a| == |b|
    ensures |c| == |a|
  {
    seq(|a|, i requires 0 <= i < |a| => a[i] != b[i])
  }

  /** The laws of the register: `top` is x^(width - 1), `unit` is x^0. */
  ghost predicate Lawful<T(!new)>(plus: (T, T) -> T, shift: T -> T, zero: T, unit: T, top: T, width: nat) {
    && 0 < width
    && Additive(plus, shift)
    && Medial(plus)
    && Neutral(plus, zero)
    && shift(zero) == zero
    && plus(unit, unit) == zero
    && plus(top, top) == zero
    && Iter(shift, width - 1, unit) == top
  }

  lemma {:induction false} DivideLinear<T(!new)>(plus: (T, T) -> T, shift: T -> T, zero: T, unit: T, a: T, b: T,
          p: seq<bool>, q: seq<bool>)
    requires Additive(plus, shift) && Medial(plus) && Neutral(plus, zero) && plus(unit, unit) == zero
    requires |p| == |q|
    ensures Divide(plus, shift, unit, plus(a, b), XorBits(p, q))
         == plus(Divide(plus, shift, unit, a, p), Divide(plus, shift, unit, b, q))
  {
    if p != [] {
      var n := |p| - 1;
      var p', q' := p[..n], q[..n];
      DivideLinear(plus, shift, zero, unit, a, b, p', q');
      assert XorBits(p, q)[..n] == XorBits(p', q');
      var s, t := shift(Divide(plus, shift, unit, a, p')), shift(Divide(plus, shift, unit, b, q'));
      BitLinear(plus, zero, unit, s, t, p[n], q[n]);
    }
  }

  lemma {:induction false} BitLinear<T(!new)>(plus: (T, T) -> T, zero: T, unit: T, s: T, t: T, c: bool, d: bool)
    requires Medial(plus) && Neutral(plus, zero) && plus(unit, unit) == zero
    ensures (if c != d then plus(plus(s, t), unit) else plus(s, t))
         == plus(if c then plus(s, unit) else s, if d then plus(t, unit) else t)
  {
    assert plus(plus(s, t), plus(unit, zero)) == plus(plus(s, unit), plus(t, zero));
    assert plus(plus(s, t), plus(zero, unit)) == plus(plus(s, zero), plus(t, unit));
    assert plus(plus(s, t), plus(unit, unit)) == plus(plus(s, unit), plus(t, unit));
  }

  lemma {:induction false} DivideZeros<T>(plus: (T, T) -> T, shift: T -> T, unit: T, r: T, n: nat)
    ensures Divide(plus, shift, unit, r, Zeros(n)) == Iter(shift, n, r)
  {
    if n > 0 {
      assert Zeros(n)[..n - 1] == Zeros(n - 1);
      DivideZeros(plus, shift, unit, r, n - 1);
      IterSum(shift, n - 1, 1, r);
      assert Iter(shift, 1, Iter(shift, n - 1, r)) == shift(Iter(shift, n - 1, r));
    }
  }

  lemma {:induction false} DivideChain<T>(plus: (T, T) -> T, shift: T -> T, unit: T, r: T, p: seq<bool>, q: seq<bool>)
    ensures Divide(plus, shift, unit, r, p + q) == Divide(plus, shift, unit, Divide(plus, shift, unit, r, p), q)
  {
    if q == [] {
      assert p + q == p;
    } else {
      assert (p + q)[..|p + q| - 1] == p + q[..|q| - 1];
      DivideChain(plus, shift, unit, r, p, q[..|q| - 1]);
    }
  }

  /** Feeding a message from an empty register is dividing it followed by
      `width` zero bits. */
  lemma {:induction false} FeedIsDivide<T(!new)>(plus: (T, T) -> T, shift: T -> T, zero: T, unit: T, top: T, width: nat,
          bits: seq<bool>)
    requires Additive(plus, shift) && shift(zero) == zero
    requires 0 < width && Iter(shift, width - 1, unit) == top
    ensures Feed(plus, shift, top, zero, bits) == Iter(shift, width, Divide(plus, shift, unit, zero, bits))
  {
    if bits == [] {
      IterZero(shift, zero, width);
    } else {
      var n := |bits| - 1;
      FeedIsDivide(plus, shift, zero, unit, top, width, bits[..n]);
      var d := Divide(plus, shift, unit, zero, bits[..n]);
      IterNext(shift, width, d);
      if bits[n] {
        IterNext(shift, width - 1, unit);
        IterAdditive(plus, shift, width, shift(d), unit);
        assert shift(plus(Iter(shift, width, d), top)) == plus(shift(Iter(shift, width, d)), shift(top));
      }
    }
  }

  lemma {:induction false} IterNext<T>(shift: T -> T, n: nat, x: T)
    ensures Iter(shift, n + 1, x) == shift(Iter(shift, n, x)) == Iter(shift, n, shift(x))
  {
    IterSum(shift, n, 1, x);
    assert Iter(shift, 1, Iter(shift, n, x)) == Iter(shift, 0, shift(Iter(shift, n, x)));
  }

  lemma {:induction false} IterZero<T>(shift: T -> T, zero: T, n: nat)
    requires shift(zero) == zero
    ensures Iter(shift, n, zero) == zero
  {
    if n > 0 {
      IterZero(shift, zero, n - 1);
    }
  }

  lemma {:induction false} FeedLinear<T(!new)>(plus: (T, T) -> T, shift: T -> T, zero: T, top: T, a: T, b: T,
          p: seq<bool>, q: seq<bool>)
    requires Additive(plus, shift) && Medial(plus) && Neutral(plus, zero) && plus(top, top) == zero
    requires |p| == |q|
    ensures Feed(plus, shift, top, plus(a, b), XorBits(p, q))
         == plus(Feed(plus, shift, top, a, p), Feed(plus, shift, top, b, q))
  {
    if p != [] {
      var n := |p| - 1;
      var p', q' := p[..n], q[..n];
      FeedLinear(plus, shift, zero, top, a, b, p', q');
      assert XorBits(p, q)[..n] == XorBits(p', q');
      var s, t := Feed(plus, shift, top, a, p'), Feed(plus, shift, top, b, q');
      BitLinear(plus, zero, top, s, t, p[n], q[n]);
      assert shift(plus(if p[n] then plus(s, top) else s, if q[n] then plus(t, top) else t))
          == plus(shift(if p[n] then plus(s, top) else s), shift(if q[n] then plus(t, top) else t));
    }
  }

  lemma {:induction false} FeedZeros<T>(plus: (T, T) -> T, shift: T -> T, top: T, r: T, n: nat)
    ensures Feed(plus, shift, top, r, Zeros(n)) == Iter(shift, n, r)
  {
    if n > 0 {
      assert Zeros(n)[..n - 1] == Zeros(n - 1);
      FeedZeros(plus, shift, top, r, n - 1);
      IterNext(shift, n - 1, r);
    }
  }

  /** The checksum register over `bits` from the preset `r`, which itself is
      the remainder of `preset`, is the remainder of the message followed by
      `width` zero bits with `preset` added to its leading bits. */
  lemma {:induction false} FeedIsRemainder<T(!new)>(plus: (T, T) -> T, shift: T -> T, zero: T, unit: T, top: T,
          width: nat, r: T, preset: seq<bool>, bits: seq<bool>)
    requires Lawful(plus, shift, zero, unit, top, width)
    requires |preset| == width && Divide(plus, shift, unit, zero, preset) == r
    ensures |preset + Zeros(|bits|)| == |bits + Zeros(width)|
    ensures Feed(plus, shift, top, r, bits)
         == Divide(plus, shift, unit, zero, XorBits(preset + Zeros(|bits|), bits + Zeros(width)))
  {
    FeedSplits(plus, shift, zero, top, r, bits);
    FeedIsDivide(plus, shift, zero, unit, top, width, bits);
    DivideSplits(plus, shift, zero, unit, preset + Zeros(|bits|), bits + Zeros(width));
    DivideChain(plus, shift, unit, zero, bits, Zeros(width));
    DivideZeros(plus, shift, unit, Divide(plus, shift, unit, zero, bits), width);
    DivideChain(plus, shift, unit, zero, preset, Zeros(|bits|));
    DivideZeros(plus, shift, unit, r, |bits|);
  }

  lemma {:induction false} FeedSplits<T(!new)>(plus: (T, T) -> T, shift: T -> T, zero: T, top: T, r: T, bits: seq<bool>)
    requires Additive(plus, shift) && Medial(plus) && Neutral(plus, zero) && plus(top, top) == zero
    ensures Feed(plus, shift, top, r, bits) == plus(Iter(shift, |bits|, r), Feed(plus, shift, top, zero, bits))
  {
    FeedLinear(plus, shift, zero, top, r, zero, Zeros(|bits|), bits);
    FeedZeros(plus, shift, top, r, |bits|);
    assert XorBits(Zeros(|bits|), bits) == bits;
    assert plus(r, zero) == r;
  }

  lemma {:induction false} DivideSplits<T(!new)>(plus: (T, T) -> T, shift: T -> T, zero: T, unit: T, p: seq<bool>,
          q: seq<bool>)
    requires Additive(plus, shift) && Medial(plus) && Neutral(plus, zero) && plus(unit, unit) == zero
    requires |p| == |q|
    ensures Divide(plus, shift, unit, zero, XorBits(p, q))
         == plus(Divide(plus, shift, unit, zero, p), Divide(plus, shift, unit, zero, q))
  {
    DivideLinear(plus, shift, zero, unit, zero, zero, p, q);
    assert plus(zero, zero) == zero;
  }

  // ---- Eight bits at a time ----

  /** The register content of a bit string whose k-th bit stands for `basis(k)`. */
  function Pack<T>(plus: (T, T) -> T, zero: T, basis: nat -> T, bits: seq<bool>): T {
    if bits == [] then zero
    else
      var p := Pack(plus, zero, basis, bits[..|bits| - 1]);
      if bits[|bits| - 1] then plus(p, basis(|bits| - 1)) else p
  }

  lemma {:induction false} PackNext<T>(plus: (T, T) -> T, zero: T, basis: nat -> T, bits: seq<bool>, n: nat)
    requires n < |bits|
    ensures Pack(plus, zero, basis, bits[..n + 1])
         == var p := Pack(plus, zero, basis, bits[..n]); if bits[n] then plus(p, basis(n)) else p
  {
    assert bits[..n + 1][..n] == bits[..n];
  }

  /** Feeding up to `width` bits one by one is adding them all and then shifting. */
  lemma {:induction false} FeedIsIter<T(!new)>(plus: (T, T) -> T, shift: T -> T, zero: T, top: T, basis: nat -> T, r: T,
          bits: seq<bool>)
    requires Additive(plus, shift) && Medial(plus) && Neutral(plus, zero)
    requires forall k: nat | k < |bits| :: Iter(shift, k, basis(k)) == top
    ensures Feed(plus, shift, top, r, bits) == Iter(shift, |bits|, plus(r, Pack(plus, zero, basis, bits)))
  {
    if bits == [] {
      assert plus(r, zero) == r;
    } else {
      var n := |bits| - 1;
      FeedIsIter(plus, shift, zero, top, basis, r, bits[..n]);
      var p := Pack(plus, zero, basis, bits[..n]);
      IterNext(shift, n, plus(r, p));
      if bits[n] {
        IterAdditive(plus, shift, n, plus(r, p), basis(n));
        IterNext(shift, n, plus(plus(r, p), basis(n)));
        assert plus(plus(r, p), plus(zero, basis(n))) == plus(plus(r, zero), plus(p, basis(n)));
      }
    }
  }

  lemma {:induction false} FeedChain<T>(plus: (T, T) -> T, shift: T -> T, top: T, r: T, p: seq<bool>, q: seq<bool>)
    ensures Feed(plus, shift, top, r, p + q) == Feed(plus, shift, top, Feed(plus, shift, top, r, p), q)
  {
    if q == [] {
      assert p + q == p;
    } else {
      assert (p + q)[..|p + q| - 1] == p + q[..|q| - 1];
      FeedChain(plus, shift, top, r, p, q[..|q| - 1]);
    }
  }

  // ---- Symbol by symbol ----

  /** Feeds a sequence of symbols into a register, one step per symbol. */
  function Absorb<T, S>(step: (T, S) -> T, r: T, data: seq<S>): T {
    if data == [] then r else step(Absorb(step, r, data[..|data| - 1]), data[|data| - 1])
  }

  lemma {:induction false} AbsorbNext<T, S>(step: (T, S) -> T, r: T, data: seq<S>, n: nat)
    requires n < |data|
    ensures Absorb(step, r, data[..n + 1]) == step(Absorb(step, r, data[..n]), data[n])
  {
    assert data[..n + 1][..n] == data[..n];
  }

  lemma {:induction false} AbsorbChain<T, S>(step: (T, S) -> T, r: T, p: seq<S>, q: seq<S>)
    ensures Absorb(step, r, p + q) == Absorb(step, Absorb(step, r, p), q)
  {
    if q == [] {
      assert p + q == p;
    } else {
      assert (p + q)[..|p + q| - 1] == p + q[..|q| - 1];
      AbsorbChain(step, r, p, q[..|q| - 1]);
    }
  }

  /** Two machines whose steps correspond under `h` stay in correspondence. */
  lemma {:induction false} AbsorbMap<T(!new), U, S(!new)>(step: (T, S) -> T, step': (U, S) -> U, h: T -> U, r: T,
          data: seq<S>)
    requires forall x: T, s: S {:trigger step(x, s)} :: step'(h(x), s) == h(step(x, s))
    ensures Absorb(step', h(r), data) == h(Absorb(step, r, data))
  {
    if data != [] {
      AbsorbMap(step, step', h, r, data[..|data| - 1]);
    }
  }

  lemma {:induction false} AbsorbInjective<T(!new), S(!new)>(step: (T, S) -> T, a: T, b: T, data: seq<S>)
    requires StepInjective(step)
    requires Absorb(step, a, data) == Absorb(step, b, data)
    ensures a == b
  {
    if data != [] {
      AbsorbInjective(step, a, b, data[..|data| - 1]);
    }
  }

  ghost predicate StepInjective<T(!new), S(!new)>(step: (T, S) -> T) {
    forall x, y, s: S {:trigger step(x, s), step(y, s)} :: step(x, s) == step(y, s) ==> x == y
  }

  /** Strings of exactly `w` symbols lead to different registers. */
  ghost predicate WindowInjective<T(!new), S(!new)>(step: (T, S) -> T, w: nat) {
    forall c: T, p: seq<S>, q: seq<S> {:trigger Absorb(step, c, p), Absorb(step, c, q)} ::
      |p| == |q| == w && Absorb(step, c, p) == Absorb(step, c, q) ==> p == q
  }

  lemma {:induction false} SplitAround<S>(a: seq<S>, b: seq<S>, k: nat, e: nat)
    requires k <= e <= |a| == |b| && a != b
    requires forall i :: 0 <= i < |a| && (i < k || i >= e) ==> a[i] == b[i]
    ensures a == a[..k] + a[k..e] + a[e..]
    ensures b == a[..k] + b[k..e] + a[e..]
    ensures a[k..e] != b[k..e]
  {
    assert b == b[..k] + b[k..e] + b[e..];
    assert b[..k] == a[..k] && b[e..] == a[e..];
  }

  /** Symbol strings of equal length that differ, but only within `w`
      consecutive symbols, lead to different registers. */
  lemma {:induction false} BurstDetected<T(!new), S(!new)>(step: (T, S) -> T, filler: S, w: nat, r: T, a: seq<S>,
          b: seq<S>, k: nat)
    requires StepInjective(step) && WindowInjective(step, w)
    requires |a| == |b| && a != b && k <= |a|
    requires forall i :: 0 <= i < |a| && (i < k || i >= k + w) ==> a[i] == b[i]
    ensures Absorb(step, r, a) != Absorb(step, r, b)
  {
    var e := if k + w <= |a| then k + w else |a|;
    SplitAround(a, b, k, e);
    Embedded(step, filler, w, r, a[..k], a[k..e], b[k..e], a[e..]);
  }

  lemma {:induction false} Embedded<T(!new), S(!new)>(step: (T, S) -> T, filler: S, w: nat, r: T, pre: seq<S>,
          x: seq<S>, y: seq<S>, post: seq<S>)
    requires StepInjective(step) && WindowInjective(step, w)
    requires |x| == |y| <= w && x != y
    ensures Absorb(step, r, pre + x + post) != Absorb(step, r, pre + y + post)
  {
    var c := Absorb(step, r, pre);
    WindowDetected(step, filler, w, c, x, y);
    AbsorbChain(step, r, pre, x);
    AbsorbChain(step, r, pre, y);
    AbsorbChain(step, r, pre + x, post);
    AbsorbChain(step, r, pre + y, post);
    if Absorb(step, r, pre + x + post) == Absorb(step, r, pre + y + post) {
      AbsorbInjective(step, Absorb(step, c, x), Absorb(step, c, y), post);
    }
  }

  /** Shorter windows do not collide either: extend both alike. */
  lemma {:induction false} WindowDetected<T(!new), S(!new)>(step: (T, S) -> T, filler: S, w: nat, c: T, x: seq<S>,
          y: seq<S>)
    requires WindowInjective(step, w)
    requires |x| == |y| <= w && x != y
    ensures Absorb(step, c, x) != Absorb(step, c, y)
    decreases w - |x|
  {
    if |x| < w {
      var x', y' := x + [filler], y + [filler];
      assert x'[..|x|] == x && y'[..|y|] == y;
      WindowDetected(step, filler, w, c, x', y');
    }
  }

  // ---- A step that adds a symbol and then shifts ----

  function Stage<T, S>(plus: (T, T) -> T, f: T -> T, emb: S -> T): (T, S) -> T {
    (c: T, s: S) => f(plus(c, emb(s)))
  }

  /** Addition without carry: a group in which every element is its own inverse. */
  ghost predicate Carryless<T(!new)>(plus: (T, T) -> T, zero: T) {
    && Medial(plus)
    && Neutral(plus, zero)
    && forall a {:trigger plus(a, a)} :: plus(a, a) == zero
  }

  lemma {:induction false} Commutes<T(!new)>(plus: (T, T) -> T, zero: T, a: T, b: T)
    requires Carryless(plus, zero)
    ensures plus(a, b) == plus(b, a)
  {
    assert plus(plus(zero, a), plus(b, zero)) == plus(plus(zero, b), plus(a, zero));
  }

  lemma {:induction false} Associates<T(!new)>(plus: (T, T) -> T, zero: T, a: T, b: T, c: T)
    requires Carryless(plus, zero)
    ensures plus(plus(a, b), c) == plus(a, plus(b, c))
  {
    assert plus(plus(a, b), plus(zero, c)) == plus(plus(a, zero), plus(b, c));
  }

  lemma {:induction false} CancelRight<T(!new)>(plus: (T, T) -> T, zero: T, a: T, b: T, c: T)
    requires Carryless(plus, zero)
    requires plus(a, b) == c
    ensures a == plus(c, b)
  {
    Associates(plus, zero, a, b, b);
  }

  lemma {:induction false} StageIsInjective<T(!new), S(!new)>(plus: (T, T) -> T, f: T -> T, emb: S -> T, zero: T)
    requires Carryless(plus, zero) && Injective(f)
    ensures StepInjective(Stage(plus, f, emb))
  {
    forall x, y, s: S | f(plus(x, emb(s))) == f(plus(y, emb(s))) ensures x == y {
      CancelRight(plus, zero, x, emb(s), plus(x, emb(s)));
      CancelRight(plus, zero, y, emb(s), plus(y, emb(s)));
    }
  }

  /** Steps back from registers that differ by `d`, where `up` undoes `f` on `d`. */
  lemma {:induction false} PeelSymbol<T(!new)>(plus: (T, T) -> T, f: T -> T, zero: T, up: T -> T, u: T, v: T, b: T,
          e: T, d: T)
    requires Carryless(plus, zero) && Additive(plus, f) && Injective(f)
    ensures f(up(d)) == d && f(plus(u, b)) == plus(f(plus(v, e)), d) ==> u == plus(v, plus(up(d), plus(b, e)))
  {
    if f(up(d)) == d && f(plus(u, b)) == plus(f(plus(v, e)), d) {
      assert f(plus(plus(v, e), up(d))) == plus(f(plus(v, e)), f(up(d)));
      assert plus(u, b) == plus(plus(v, e), up(d));
      CancelRight(plus, zero, u, b, plus(u, b));
      Regroup(plus, zero, v, e, up(d), b);
    }
  }

  lemma {:induction false} Regroup<T(!new)>(plus: (T, T) -> T, zero: T, v: T, e: T, d: T, b: T)
    requires Carryless(plus, zero)
    ensures plus(plus(plus(v, e), d), b) == plus(v, plus(d, plus(b, e)))
  {
    Associates(plus, zero, plus(v, e), d, b);
    Associates(plus, zero, v, e, plus(d, b));
    Commutes(plus, zero, e, plus(d, b));
    Associates(plus, zero, d, b, e);
  }

  /** The packed differences of two symbol strings, oldest symbol lowest. */
  function Packed<T, S>(plus: (T, T) -> T, zero: T, emb: S -> T, up: T -> T, p: seq<S>, q: seq<S>): T
    requires |p| == |q|
  {
    if p == [] then zero
    else plus(up(Packed(plus, zero, emb, up, p[1..], q[1..])), plus(emb(p[0]), emb(q[0])))
  }

  /** Every proper tail of the packed differences is small enough for `up` to undo `f`. */
  ghost predicate Undoable<T, S>(plus: (T, T) -> T, f: T -> T, emb: S -> T, zero: T, up: T -> T, p: seq<S>, q: seq<S>)
    requires |p| == |q|
  {
    p == [] ||
    var d := Packed(plus, zero, emb, up, p[1..], q[1..]);
    f(up(d)) == d && Undoable(plus, f, emb, zero, up, p[1..], q[1..])
  }

  /** Registers that reach the same register through `p` and `q` differ by
      the packed differences of `p` and `q`. */
  lemma {:induction false} PeelAll<T(!new), S(!new)>(plus: (T, T) -> T, f: T -> T, emb: S -> T, zero: T, up: T -> T,
          u: T, v: T, p: seq<S>, q: seq<S>)
    requires Carryless(plus, zero) && Additive(plus, f) && Injective(f)
    requires |p| == |q| && Undoable(plus, f, emb, zero, up, p, q)
    requires Absorb(Stage(plus, f, emb), u, p) == Absorb(Stage(plus, f, emb), v, q)
    ensures u == plus(v, Packed(plus, zero, emb, up, p, q))
  {
    if p == [] {
      assert plus(v, zero) == v;
    } else {
      var step := Stage(plus, f, emb);
      AbsorbHead(step, u, p);
      AbsorbHead(step, v, q);
      PeelAll(plus, f, emb, zero, up, f(plus(u, emb(p[0]))), f(plus(v, emb(q[0]))), p[1..], q[1..]);
      PeelSymbol(plus, f, zero, up, u, v, emb(p[0]), emb(q[0]), Packed(plus, zero, emb, up, p[1..], q[1..]));
    }
  }

  /** `up` undoes `f` on the packed differences of fewer than `w` symbols. */
  ghost predicate Undoes<T(!new)>(f: T -> T, up: T -> T, fits: (nat, T) -> bool, w: nat) {
    forall n: nat, d: T {:trigger fits(n, d)} :: n < w && fits(n, d) ==> f(up(d)) == d
  }

  /** `fits(n, d)`: the packed differences of `n` symbols may be `d`. One more
      symbol keeps that and loses nothing. */
  ghost predicate Roomy<T(!new), S(!new)>(plus: (T, T) -> T, emb: S -> T, zero: T, up: T -> T, fits: (nat, T) -> bool,
          w: nat) {
    forall n: nat, d: T, s: S, t: S {:trigger fits(n, d), plus(up(d), plus(emb(s), emb(t)))} :: n < w && fits(n, d) ==>
      && fits(n + 1, plus(up(d), plus(emb(s), emb(t))))
      && (plus(up(d), plus(emb(s), emb(t))) == zero ==> d == zero && s == t)
  }

  lemma {:induction false} PackedFits<T(!new), S(!new)>(plus: (T, T) -> T, f: T -> T, emb: S -> T, zero: T, up: T -> T,
                                                        fits: (nat, T) -> bool, w: nat, p: seq<S>, q: seq<S>)
    requires fits(0, zero) && Undoes(f, up, fits, w) && Roomy(plus, emb, zero, up, fits, w)
    requires |p| == |q| <= w
    ensures fits(|p|, Packed(plus, zero, emb, up, p, q))
    ensures Undoable(plus, f, emb, zero, up, p, q)
    ensures Packed(plus, zero, emb, up, p, q) == zero ==> p == q
  {
    if p != [] {
      PackedFits(plus, f, emb, zero, up, fits, w, p[1..], q[1..]);
      var d := Packed(plus, zero, emb, up, p[1..], q[1..]);
      assert fits(|p| - 1, d);
      assert p == [p[0]] + p[1..] && q == [q[0]] + q[1..];
    }
  }

  lemma {:induction false} NoDifference<T(!new)>(plus: (T, T) -> T, zero: T, c: T, d: T)
    requires Carryless(plus, zero) && c == plus(c, d)
    ensures d == zero
  {
    Commutes(plus, zero, c, d);
    CancelRight(plus, zero, d, c, c);
  }

  lemma {:induction false} AbsorbHead<T, S>(step: (T, S) -> T, r: T, p: seq<S>)
    requires p != []
    ensures Absorb(step, r, p) == Absorb(step, step(r, p[0]), p[1..])
  {
    AbsorbChain(step, r, [p[0]], p[1..]);
    assert [p[0]] + p[1..] == p;
  }
}
