/** Transfers in parts (sdk/bta_eth.c): a firmware image sent over UDP in
    pieces of at most 768 bytes and over TCP in tenths, and a response received
    in tenths. All three share one loop, whose 32-bit arithmetic is modelled
    here. */
module ChunkedTransfer {
  import Sequences
  import opened Types

  // ---- 32-bit arithmetic ----

  type uint32 = x: nat | x < UINT32_RANGE

  function Sum32(a: uint32, b: uint32): uint32 {
    if a + b < UINT32_RANGE then a + b else a + b - UINT32_RANGE
  }

  function Diff32(a: uint32, b: uint32): uint32 {
    if a >= b then a - b else a - b + UINT32_RANGE
  }

  // ---- The loop ----

  /** `pos` is how far the buffer pointer has come, `sent` and `part` are the
      32-bit variables of the loop. */
  datatype Cursor = Cursor(pos: nat, sent: uint32, part: uint32)

  /** One round of the loop. */
  function Advance(c: Cursor, total: uint32): Cursor {
    var sent := Sum32(c.sent, c.part);
    Cursor(c.pos + c.part, sent, if Sum32(sent, c.part) > total then Diff32(total, sent) else c.part)
  }

  function After(total: uint32, part: uint32, n: nat): Cursor {
    if n == 0 then Cursor(0, 0, part) else Advance(After(total, part, n - 1), total)
  }

  /** The loop ends after n rounds, with the pointer exactly at the end. */
  predicate EndsAt(total: uint32, part: uint32, n: nat) {
    && n > 0 && After(total, part, n) == Cursor(total, total, After(total, part, n).part)
    && forall m :: 0 < m < n ==> After(total, part, m).sent < total && After(total, part, m).pos < total
  }

  /** No sum of the loop passes 32 bits before the last part is cut short. */
  predicate NoWrap(total: nat, part: nat)
    requires 0 < part
  {
    total % part == 0 || total - total % part + part < UINT32_RANGE
  }

  /** n parts. */
  function Parts(n: nat, part: nat): nat {
    if n == 0 then 0 else Parts(n - 1, part) + part
  }

  lemma {:induction false} PartsIsProduct(n: nat, part: nat)
    ensures Parts(n, part) == n * part
  {
    if n > 0 {
      PartsIsProduct(n - 1, part);
      assert n * part == (n - 1) * part + part;
    }
  }

  /** q full parts fit, and no more. */
  predicate Fits(total: nat, part: nat, q: nat) {
    0 < part <= total < UINT32_RANGE && q > 0 && Parts(q, part) <= total < Parts(q, part) + part
  }

  predicate NoWrapAt(total: nat, part: nat, q: nat) {
    Parts(q, part) == total || Parts(q, part) + part < UINT32_RANGE
  }

  lemma {:induction false} Quotient(total: nat, part: nat) returns (q: nat)
    requires 0 < part <= total < UINT32_RANGE
    ensures q == total / part && Fits(total, part, q) && (NoWrap(total, part) <==> NoWrapAt(total, part, q))
  {
    q := total / part;
    PartsIsProduct(q, part);
  }

  lemma {:induction false} Smaller(m: nat, q: nat, part: nat)
    requires m < q
    ensures Parts(m, part) + part <= Parts(q, part)
  {
    if m < q - 1 {
      Smaller(m, q - 1, part);
    }
  }

  /** As long as only full parts were sent, the pointer is at a multiple. */
  lemma {:induction false} FullParts(total: nat, part: nat, q: nat, m: nat)
    requires Fits(total, part, q) && m <= q
    ensures After(total, part, m).pos == After(total, part, m).sent == Parts(m, part)
    ensures m < q ==> After(total, part, m).part == part && Parts(m, part) < total
    ensures m == q && NoWrapAt(total, part, q) && Parts(q, part) < total ==>
            After(total, part, q).part == total - Parts(q, part)
    ensures m == q && !NoWrapAt(total, part, q) ==> After(total, part, q).part == part
  {
    if m < q {
      Smaller(m, q, part);
    }
    if m > 0 {
      FullParts(total, part, q, m - 1);
      assert After(total, part, m) == Advance(After(total, part, m - 1), total);
    }
  }

  /** The slices cover the buffer exactly, and the loop ends, if and only if no
      sum wraps around in 32 bits. */
  lemma {:induction false} CoversIffNoWrap(total: nat, part: nat)
    requires 0 < part <= total < UINT32_RANGE
    ensures (exists n: nat :: EndsAt(total, part, n)) <==> NoWrap(total, part)
  {
    var q := Quotient(total, part);
    if NoWrap(total, part) {
      Covers(total, part, q);
    } else {
      forall n: nat ensures !EndsAt(total, part, n) {
        PassesTheEnd(total, part, q, n);
      }
    }
  }

  lemma {:induction false} Covers(total: nat, part: nat, q: nat)
    requires Fits(total, part, q) && NoWrapAt(total, part, q)
    ensures exists n: nat :: EndsAt(total, part, n)
  {
    forall m: nat | m < q ensures After(total, part, m).sent < total && After(total, part, m).pos < total {
      FullParts(total, part, q, m);
    }
    FullParts(total, part, q, q);
    var c := After(total, part, q);
    if c.pos == total {
      assert EndsAt(total, part, q);
    } else {
      assert After(total, part, q + 1) == Advance(c, total);
      assert EndsAt(total, part, q + 1);
    }
  }

  lemma {:induction false} PassesTheEnd(total: nat, part: nat, q: nat, n: nat)
    requires Fits(total, part, q) && !NoWrapAt(total, part, q)
    ensures After(total, part, n).pos != total
    ensures n > q ==> After(total, part, n).pos > total
  {
    if n <= q {
      FullParts(total, part, q, n);
      if n < q {
        Smaller(n, q, part);
      }
    } else {
      assert After(total, part, n) == Advance(After(total, part, n - 1), total);
      if n == q + 1 {
        FullParts(total, part, q, q);
      } else {
        PassesTheEnd(total, part, q, n - 1);
      }
    }
  }

  /** With parts of no bytes the loop stands still: this is what a response of
      one to nine bytes, received in tenths, leads to. */
  lemma {:induction false} NoProgress(total: nat, n: nat)
    requires 0 < total < UINT32_RANGE
    ensures After(total, 0, n) == Cursor(0, 0, 0) && !EndsAt(total, 0, n)
  {
    if n > 0 {
      NoProgress(total, n - 1);
    }
  }

  // ---- The part sizes ----

  function UdpPart(total: nat): nat {
    if total < 768 then total else 768
  }

  function TcpPart(total: nat): (part: nat)
    ensures total > 0 ==> 0 < part <= total
  {
    if total > 500000 then total / 10 else total
  }

  function ReceivePart(total: nat): nat {
    total / 10
  }

  /** Which lengths each of the transfers gets right. */
  lemma {:induction false} TransfersCoverIff(total: nat)
    requires 0 < total < UINT32_RANGE
    ensures (exists n: nat :: EndsAt(total, UdpPart(total), n)) <==> total <= 0xFFFF_FFFF - 255
    ensures (exists n: nat :: EndsAt(total, TcpPart(total), n)) <==> total % TcpPart(total) == 0 || total < 3904515730
    ensures (exists n: nat :: EndsAt(total, ReceivePart(total), n)) <==>
            total >= 10 && (total % ReceivePart(total) == 0 || total < 3904515730)
  {
    CoversIffNoWrap(total, UdpPart(total));
    CoversIffNoWrap(total, TcpPart(total));
    if total > 500000 {
      TenthNoWrap(total);
    }
    if total >= 10 {
      CoversIffNoWrap(total, ReceivePart(total));
      TenthNoWrap(total);
    } else {
      forall n: nat ensures !EndsAt(total, ReceivePart(total), n) {
        NoProgress(total, n);
      }
    }
  }

  lemma {:induction false} TenthNoWrap(total: nat)
    requires 10 <= total < UINT32_RANGE
    ensures NoWrap(total, total / 10) <==> total % (total / 10) == 0 || total < 3904515730
  {
  }

  // ---- The transfers ----

  /** Tries to send one part, up to `attempts` times; attempt a has the outcome
      `accepted(a)`. */
  method SendPart(attempts: nat, accepted: nat -> bool) returns (ok: bool)
    ensures ok <==> exists a: nat :: a < attempts && accepted(a)
  {
    ok := false;
    var a := 0;
    while a < attempts && !ok
      invariant a <= attempts
      invariant ok <==> exists b: nat :: b < a && accepted(b)
    {
      ok := accepted(a);
      a := a + 1;
    }
  }

  /** The slices sent so far, and where the loop stands. */
  ghost predicate Sending(data: seq<byte>, part0: nat, slices: seq<seq<byte>>, sent: nat, part: int) {
    && |data| < UINT32_RANGE && part0 < UINT32_RANGE
    && sent <= |data| && 0 <= part < UINT32_RANGE && Sequences.Flat(slices) == data[..sent]
    && After(|data|, part0, |slices|) == Cursor(sent, sent, part)
    && (forall k :: 0 <= k < |slices| ==> 0 < |slices[k]| <= part0)
    && (sent < |data| ==> 0 < part <= part0 && sent + part <= |data|)
  }

  /** Slice n, and those before it, are not past the end. */
  predicate Inside(total: nat, part: nat, n: nat)
    requires 0 < part
  {
    NoWrap(total, part) || n < total / part
  }

  lemma {:induction false} StaysInside(total: nat, part0: nat, n: nat)
    requires 0 < part0 <= total < UINT32_RANGE && Inside(total, part0, n)
    requires After(total, part0, n).pos == After(total, part0, n).sent < total
    ensures var c := After(total, part0, n);
            0 < c.part <= part0 && c.pos + c.part <= total
  {
    var q := Quotient(total, part0);
    if n < q {
      FullParts(total, part0, q, n);
      Smaller(n, q, part0);
    } else {
      FullParts(total, part0, q, q);
      if n > q {
        AfterTheEnd(total, part0, q, n);
      }
    }
  }

  lemma {:induction false} AfterTheEnd(total: nat, part: nat, q: nat, n: nat)
    requires Fits(total, part, q) && NoWrapAt(total, part, q) && n > q
    ensures After(total, part, n).pos >= total
  {
    assert After(total, part, n) == Advance(After(total, part, n - 1), total);
    if n > q + 1 {
      AfterTheEnd(total, part, q, n - 1);
    } else {
      FullParts(total, part, q, q);
    }
  }

  /** One more slice. */
  lemma {:induction false} NextSlice(data: seq<byte>, part0: nat, slices: seq<seq<byte>>, sent: nat, part: nat,
                                     next: int)
    requires 0 < part0 <= |data| < UINT32_RANGE && Inside(|data|, part0, |slices| + 1)
    requires sent < |data| && Sending(data, part0, slices, sent, part)
    requires next == if Sum32(sent + part, part) > |data| then |data| - sent - part else part
    ensures next >= 0 && Sending(data, part0, slices + [data[sent..sent + part]], sent + part, next)
  {
    Sequences.FlatAppend(slices, data[sent..sent + part]);
    var n := |slices|;
    assert data[..sent] + data[sent..sent + part] == data[..sent + part];
    NextCursor(|data|, part0, n, sent, part, next);
  }

  lemma {:induction false} NextCursor(total: nat, part0: nat, n: nat, sent: nat, part: nat, next: int)
    requires 0 < part0 <= total < UINT32_RANGE && Inside(total, part0, n + 1)
    requires sent + part <= total && After(total, part0, n) == Cursor(sent, sent, part)
    requires next == if Sum32(sent + part, part) > total then total - sent - part else part
    ensures next >= 0 && After(total, part0, n + 1) == Cursor(sent + part, sent + part, next)
    ensures sent + part < total ==> 0 < next <= part0 && sent + part + next <= total
  {
    assert After(total, part0, n + 1) == Advance(After(total, part0, n), total);
    if sent + part < total {
      StaysInside(total, part0, n + 1);
    }
  }

  /** Some attempt at slice k was accepted. */
  predicate Accepted(accepted: nat -> nat -> bool, attempts: nat, k: nat) {
    exists a: nat :: a < attempts && accepted(k)(a)
  }

  /** One of the first n slices fails every attempt. */
  predicate FailsBefore(accepted: nat -> nat -> bool, attempts: nat, n: nat) {
    exists k: nat :: k < n && !Accepted(accepted, attempts, k)
  }

  /** The send loops of the flash update: `accepted(k)(a)` is the outcome of
      attempt a at slice k. The slices are the buffer cut up in order; if one
      fails every attempt nothing more is sent. Left out are just the calls that
      read past the end of the buffer: a sum wraps around, and no slice before
      that fails. */
  method SendInParts(data: array<byte>, part0: nat, attempts: nat, accepted: nat -> nat -> bool)
    returns (ok: bool, slices: seq<seq<byte>>)
    requires data.Length < UINT32_RANGE && part0 <= data.Length
    requires data.Length > 0 ==>
               0 < part0
               && (NoWrap(data.Length, part0) || FailsBefore(accepted, attempts, data.Length / part0))
    ensures if ok then Sequences.Flat(slices) == data[..] else Sequences.Flat(slices) <= data[..]
    ensures data.Length > 0 ==> forall k :: 0 <= k < |slices| ==> 0 < |slices[k]| <= part0
    ensures forall k: nat :: k < |slices| ==> Accepted(accepted, attempts, k)
    ensures !ok ==> !Accepted(accepted, attempts, |slices|)
  {
    slices := [];
    ok := true;
    var sent: nat, part: nat := 0, part0;
    if data.Length == 0 {
      ok := SendPart(attempts, accepted(0));
      if ok {
        slices := slices + [[]];
        Sequences.FlatAppend<byte>([], []);
      }
      return;
    }
    while sent < data.Length
      invariant Sending(data[..], part0, slices, sent, part)
      invariant forall k: nat :: k < |slices| ==> Accepted(accepted, attempts, k)
      decreases data.Length - sent
    {
      ok := SendPart(attempts, accepted(|slices|));
      if !ok {
        return;
      }
      assert Accepted(accepted, attempts, |slices|);
      NextSlice(data[..], part0, slices, sent, part,
                if Sum32(sent + part, part) > data.Length then data.Length - sent - part else part);
      slices := slices + [data[sent..sent + part]];
      sent := Sum32(sent, part);
      if Sum32(sent, part) > data.Length {
        part := data.Length - sent;
      }
    }
  }

  predicate AnyFails(arrives: nat -> bool, n: nat) {
    exists k: nat :: k < n && !arrives(k)
  }

  /** Whether the receive loop ends inside the buffer: no sum wraps around, or a
      receive before that fails; for less than ten bytes some receive must. */
  ghost predicate EndsInside(total: nat, arrives: nat -> bool)
    requires 0 < total
  {
    if total < 10 then exists n: nat :: AnyFails(arrives, n)
    else NoWrap(total, total / 10) || AnyFails(arrives, total / (total / 10))
  }

  /** What has been received; with less than ten bytes the loop stands still. */
  ghost predicate Receiving(response: seq<byte>, slices: seq<seq<byte>>, received: nat, part: nat) {
    if |response| < 10 then received == part == 0
    else Sending(response, |response| / 10, slices, received, part)
  }

  lemma {:induction false} NextReceived(response: seq<byte>, arrives: nat -> bool, slices: seq<seq<byte>>,
                                        received: nat, part: nat, next: int)
    requires 0 < |response| < UINT32_RANGE && EndsInside(|response|, arrives)
    requires forall k: nat :: k <= |slices| ==> arrives(k)
    requires received + part <= |response| && received < |response| && Receiving(response, slices, received, part)
    requires next == if Sum32(received + part, part) > |response| then |response| - received - part else part
    ensures next >= 0 && Receiving(response, slices + [response[received..received + part]], received + part, next)
  {
    if |response| >= 10 {
      NextSlice(response, |response| / 10, slices, received, part, next);
    }
  }

  /** The receive loop: slices of the response arrive one after the other and
      are put into the buffer; `arrives(k)` says whether receive k succeeds. */
  method ReceiveInParts(data: array<byte>, response: seq<byte>, arrives: nat -> bool) returns (ok: bool)
    requires 0 < data.Length == |response| < UINT32_RANGE && EndsInside(data.Length, arrives)
    modifies data
    ensures ok ==> data[..] == response
    ensures !ok ==> exists k :: !arrives(k)
  {
    var received: nat, part: nat := 0, data.Length / 10;
    var rounds: nat := 0;
    ghost var slices: seq<seq<byte>> := [];
    ghost var failing: nat := 0;
    if data.Length < 10 {
      var n: nat :| AnyFails(arrives, n);
      failing :| !arrives(failing);
    }
    ok := true;
    while received < data.Length
      invariant Receiving(response, slices, received, part) && |slices| == rounds
      invariant data[..received] == response[..received]
      invariant forall k: nat :: k < rounds ==> arrives(k)
      invariant data.Length < 10 ==> rounds <= failing
      decreases data.Length - received, failing - rounds
    {
      if !arrives(rounds) {
        return false;
      }
      NextReceived(response, arrives, slices, received, part,
                   if Sum32(received + part, part) > data.Length then data.Length - received - part else part);
      slices := slices + [response[received..received + part]];
      forall k | 0 <= k < part {
        data[received + k] := response[received + k];
      }
      rounds := rounds + 1;
      received := Sum32(received, part);
      if Sum32(received, part) > data.Length {
        part := data.Length - received;
      }
    }
  }
}
