/** Protocol v1 does hand frames on: how long the arrays become, and that a
    frame all of whose packets fit goes out with the last of them. */
module LegacyDelivery {
  import opened LegacyFaithful
  import opened LegacyFrames
  import opened Sequences
  import opened Types

  // ---- The length of the arrays ----

  function Doubled(n: nat): nat {
    if n == 0 then 512 else 2 * Doubled(n - 1)
  }

  /** The length after n regrowths; the seventh does not fit into 16 bits. */
  function Grown(n: nat): nat {
    if n < 7 then Doubled(n) else 0
  }

  lemma {:induction false} GrownNext(n: nat)
    ensures Grown(n + 1) == (Grown(n) * 2) % UINT16_RANGE
  {
    assert Doubled(1) == 1024 && Doubled(2) == 2048 && Doubled(3) == 4096;
    assert Doubled(4) == 8192 && Doubled(5) == 16384 && Doubled(6) == 32768;
  }

  /** How many datagrams of a run have a number that the arrays, as they are
      when it comes, are too short for. */
  function Overflows(st: State, ds: seq<Datagram>): nat
    requires Valid(st) && LegalRun(ds)
    decreases |ds|
  {
    if ds == [] then 0
    else (if ds[0].packetCounter >= st.len then 1 else 0) + Overflows(Step(st, ds[0]).st, ds[1..])
  }

  lemma {:induction false} StepLength(st: State, d: Datagram)
    requires Valid(st) && Legal(d)
    ensures Step(st, d).st.len == if d.packetCounter >= st.len then (st.len * 2) % UINT16_RANGE else st.len
  {
  }

  lemma {:induction false} LengthGrows(st: State, ds: seq<Datagram>, n: nat)
    requires Valid(st) && LegalRun(ds) && st.len == Grown(n)
    ensures End(st, ds).len == Grown(n + Overflows(st, ds))
    decreases |ds|
  {
    if ds != [] {
      var next, m := Step(st, ds[0]).st, if ds[0].packetCounter >= st.len then n + 1 else n;
      assert next.len == Grown(m) by {
        GrownNext(n);
        StepLength(st, ds[0]);
      }
      LengthGrows(next, ds[1..], m);
      assert n + Overflows(st, ds) == m + Overflows(next, ds[1..]);
    }
  }

  /** Over every run the arrays have length 512 times two to the number of
      datagrams they were too short for, and none at all from the seventh on. */
  lemma {:induction false} LengthOfRun(ds: seq<Datagram>)
    requires LegalRun(ds)
    ensures End(Start(), ds).len == Grown(Overflows(Start(), ds))
  {
    LengthGrows(Start(), ds, 0);
  }

  // ---- A frame that fits ----

  /** A packet of frame `f`, sent under counter c. */
  predicate PacketOf(d: Datagram, c: nat, f: SentFrame) {
    && Legal(d) && d.frameCounter == c && d.packetCounter < |f|
    && d.packet.payload == f[d.packetCounter] && d.totalLength == |Flat(f)|
  }

  /** The array of the frame holds exactly the packets in `have`; or it has
      none yet, and no packet of the frame has come. */
  predicate Awaits(st: State, c: nat, f: SentFrame, have: set<nat>) {
    && Valid(st) && NoneEmpty(f) && |f| <= st.len
    && match LaneOf(st, c)
       case None => have == {}
       case Some(k) => Holds(st.lanes[k], f, have)
  }

  predicate Holds(lane: Lane, f: SentFrame, have: set<nat>) {
    && CellsMatch(lane.cells, f) && Stale(lane) == 0
    && |f| <= |lane.cells| && forall i :: 0 <= i < |f| ==> (lane.cells[i].Some? <==> i in have)
  }

  predicate Covers(have: set<nat>, f: SentFrame) {
    forall i: nat :: i < |f| ==> i in have
  }

  lemma {:induction false} ClaimHolds(st: State, c: nat, f: SentFrame, have: set<nat>)
    requires Awaits(st, c, f, have)
    ensures var (u, k, evicted) := Claim(st, c);
            u.len == st.len && Holds(u.lanes[k], f, have)
  {
    if LaneOf(st, c).None? {
      NewLaneIsClean(st, c);
    }
  }

  /** Not the last one missing: it is stored. */
  lemma {:induction false} DepositHolds(u: State, k: nat, d: Datagram, f: SentFrame, have: set<nat>)
    requires Valid(u) && k < 3 && |f| <= u.len && Holds(u.lanes[k], f, have) && NoneEmpty(f)
    requires PacketOf(d, d.frameCounter, f) && !Covers(have + {d.packetCounter}, f)
    ensures var r := Deposit(u, k, d);
            && r.frame.None? && Holds(r.st.lanes[k], f, have + {d.packetCounter})
            && r.st == u.(lanes := u.lanes[k := Store(u.lanes[k], d.packetCounter, d.packet).0])
  {
    var lane := Store(u.lanes[k], d.packetCounter, d.packet).0;
    StoreKeepsStale(u.lanes[k], d.packetCounter, d.packet);
    FullIffAllPresent(lane.cells, f, 0);
    assert Prefix(f, 0) == [];
    var i: nat :| i < |f| && i !in have + {d.packetCounter};
    assert lane.cells[i].None?;
  }

  /** The last one missing: the frame goes out. */
  lemma {:induction false} DepositDelivers(u: State, k: nat, d: Datagram, f: SentFrame, have: set<nat>)
    requires Valid(u) && k < 3 && |f| <= u.len && Holds(u.lanes[k], f, have) && NoneEmpty(f)
    requires PacketOf(d, d.frameCounter, f) && Covers(have + {d.packetCounter}, f)
    ensures Deposit(u, k, d).frame == Some((d.frameCounter, Flat(f)))
  {
    DeliversIff(u, k, d, f);
    var lane := Store(u.lanes[k], d.packetCounter, d.packet).0;
    assert CellsMatch(lane.cells, f);
    assert Prefix(f, 0) == [];
    CopyFaithful(lane.cells, 0, f, []);
    var cells := u.lanes[k].cells[d.packetCounter := Some(d.packet)];
    forall i: nat | i < |f| ensures cells[i].Some? {
      assert i in have + {d.packetCounter};
    }
  }

  lemma {:induction false} PacketTakenIn(st: State, d: Datagram, f: SentFrame, have: set<nat>)
    requires Awaits(st, d.frameCounter, f, have) && PacketOf(d, d.frameCounter, f)
    ensures var r := Step(st, d);
            if Covers(have + {d.packetCounter}, f) then r.frame == Some((d.frameCounter, Flat(f)))
            else r.frame.None? && Awaits(r.st, d.frameCounter, f, have + {d.packetCounter})
  {
    ClaimHolds(st, d.frameCounter, f, have);
    var (u, k, evicted) := Claim(st, d.frameCounter);
    if Covers(have + {d.packetCounter}, f) {
      DepositDelivers(u, k, d, f, have);
    } else {
      DepositHolds(u, k, d, f, have);
    }
  }

  /** Every packet of the frame not yet there, each once, in any order. */
  predicate TheRest(ds: seq<Datagram>, c: nat, f: SentFrame, have: set<nat>) {
    && (forall k :: 0 <= k < |ds| ==> PacketOf(ds[k], c, f) && ds[k].packetCounter !in have)
    && (forall j, k :: 0 <= j < k < |ds| ==> ds[j].packetCounter != ds[k].packetCounter)
    && (forall i: nat :: i < |f| && i !in have ==> exists k :: 0 <= k < |ds| && ds[k].packetCounter == i)
  }

  lemma {:induction false} RestAfterOne(ds: seq<Datagram>, c: nat, f: SentFrame, have: set<nat>)
    requires ds != [] && TheRest(ds, c, f, have)
    ensures TheRest(ds[1..], c, f, have + {ds[0].packetCounter})
    ensures Covers(have + {ds[0].packetCounter}, f) <==> |ds| == 1
  {
    var more := have + {ds[0].packetCounter};
    forall i: nat | i < |f| && i !in more ensures exists k :: 0 <= k < |ds[1..]| && ds[1..][k].packetCounter == i {
      var k :| 0 <= k < |ds| && ds[k].packetCounter == i;
      assert ds[1..][k - 1].packetCounter == i;
    }
    if |ds| > 1 {
      assert ds[1].packetCounter !in more;
    }
  }

  lemma {:induction false} RestIsHandedOn(st: State, ds: seq<Datagram>, c: nat, f: SentFrame, have: set<nat>)
    requires Awaits(st, c, f, have) && ds != [] && TheRest(ds, c, f, have)
    ensures LegalRun(ds) && Run(st, ds) == [(c, Flat(f))]
    decreases |ds|
  {
    RestAfterOne(ds, c, f, have);
    PacketTakenIn(st, ds[0], f, have);
    if |ds| > 1 {
      RestIsHandedOn(Step(st, ds[0]).st, ds[1..], c, f, have + {ds[0].packetCounter});
    } else {
      assert Run(Step(st, ds[0]).st, ds[1..]) == [];
    }
  }

  /** A frame with no array yet whose packets fit the arrays is handed on, once,
      when its packets have come, in whatever order. */
  lemma {:induction false} FrameThatFitsIsHandedOn(st: State, ds: seq<Datagram>, c: nat, f: SentFrame)
    requires Valid(st) && LaneOf(st, c).None? && NoneEmpty(f) && 0 < |f| <= st.len
    requires TheRest(ds, c, f, {})
    ensures LegalRun(ds) && Run(st, ds) == [(c, Flat(f))]
  {
    var none: set<nat> := {};
    var first: nat := 0;
    assert first < |f| && first !in none;
    RestIsHandedOn(st, ds, c, f, none);
  }
}
