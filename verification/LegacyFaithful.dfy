/** What protocol v1 reassembly guarantees: every frame handed on is a frame
    that was sent, and exactly when a frame is handed on. */
module LegacyFaithful {
  import opened LegacyFrames
  import opened Sequences
  import opened Types

  /** A frame as sent: the payloads of its packets, numbered from 0. */
  type SentFrame = seq<seq<byte>>

  type Sender = map<int, SentFrame>

  /** The frame up to packet n. */
  function Prefix(f: SentFrame, n: nat): seq<byte> {
    if n <= |f| then Flat(f[..n]) else Flat(f)
  }

  lemma {:induction false} PrefixGrows(f: SentFrame, n: nat)
    ensures Prefix(f, n + 1) == Prefix(f, n) + if n < |f| then f[n] else []
    ensures |Prefix(f, n)| <= |Flat(f)|
    ensures |Prefix(f, n)| == |Flat(f)| ==> Prefix(f, n) == Flat(f)
    decreases |f| - n
  {
    if n < |f| {
      assert f[..n + 1][..n] == f[..n];
      PrefixGrows(f, n + 1);
    } else {
      assert f[..|f|] == f;
    }
  }

  predicate Genuine(d: Datagram, sender: Sender) {
    && d.frameCounter in sender
    && var f := sender[d.frameCounter];
       d.packetCounter < |f| && d.packet.payload == f[d.packetCounter] && d.totalLength == |Flat(f)|
  }

  /** The packets held are packets of `f`, each in its place. */
  predicate CellsMatch(cells: Cells, f: SentFrame) {
    forall k :: 0 <= k < |cells| && cells[k].Some? ==> k < |f| && cells[k].value.payload == f[k]
  }

  predicate Nothing(cells: Cells) {
    forall k :: 0 <= k < |cells| ==> cells[k] == None
  }

  predicate LaneFaithful(lane: Lane, sender: Sender) {
    if lane.counter in sender then CellsMatch(lane.cells, sender[lane.counter]) else Nothing(lane.cells)
  }

  predicate Faithful(st: State, sender: Sender)
    requires Valid(st)
  {
    forall k :: 0 <= k < 3 ==> LaneFaithful(st.lanes[k], sender)
  }

  // ---- Every frame handed on is the frame sent ----

  /** As many bytes as the frame up to packet i has are those bytes. */
  predicate SoFar(done: seq<byte>, f: SentFrame, i: nat) {
    |done| <= |Prefix(f, i)| && (|done| == |Prefix(f, i)| ==> done == Prefix(f, i))
  }

  lemma {:induction false} SoFarSkips(done: seq<byte>, f: SentFrame, i: nat)
    requires SoFar(done, f, i)
    ensures SoFar(done, f, i + 1)
  {
    PrefixGrows(f, i);
  }

  lemma {:induction false} SoFarAdds(done: seq<byte>, f: SentFrame, i: nat)
    requires SoFar(done, f, i) && i < |f|
    ensures SoFar(done + f[i], f, i + 1) && |done + f[i]| <= |Flat(f)|
  {
    PrefixGrows(f, i);
    PrefixGrows(f, i + 1);
  }

  lemma {:induction false} SoFarEnds(done: seq<byte>, f: SentFrame, i: nat)
    requires SoFar(done, f, i) && |done| == |Flat(f)|
    ensures done == Flat(f)
  {
    PrefixGrows(f, i);
  }

  /** The length check at the end is what makes this true: whatever the byte
      count said, bytes of the right length are the right bytes. */
  lemma {:induction false} CopyFaithful(cells: Cells, i: nat, f: SentFrame, done: seq<byte>)
    requires i <= |cells| && CellsMatch(cells, f) && SoFar(done, f, i)
    ensures var (end, freed, bytes) := Copy(cells, i, |Flat(f)|, done);
            CellsMatch(end, f) && (|bytes| == |Flat(f)| ==> bytes == Flat(f))
    decreases |cells| - i
  {
    if i == |cells| {
      if |done| == |Flat(f)| {
        SoFarEnds(done, f, i);
      }
    } else if cells[i].None? {
      SoFarSkips(done, f, i);
      CopyFaithful(cells, i + 1, f, done);
    } else {
      SoFarAdds(done, f, i);
      var rest, more := cells[i := None], done + f[i];
      assert CellsMatch(rest, f);
      if |more| == |Flat(f)| {
        SoFarEnds(more, f, i + 1);
        assert Copy(cells, i, |Flat(f)|, done) == (rest, [cells[i].value], more);
      } else {
        CopyFaithful(rest, i + 1, f, more);
        assert Copy(cells, i, |Flat(f)|, done).2 == Copy(rest, i + 1, |Flat(f)|, more).2;
      }
    }
  }

  lemma {:induction false} DepositFaithful(u: State, k: nat, d: Datagram, sender: Sender)
    requires Valid(u) && k < 3 && d.packetCounter < u.len && Legal(d)
    requires u.lanes[k].counter == d.frameCounter && Genuine(d, sender) && Faithful(u, sender)
    ensures var r := Deposit(u, k, d);
            Faithful(r.st, sender)
              && (r.frame.Some? ==> r.frame.value == (d.frameCounter, Flat(sender[d.frameCounter])))
  {
    var f := sender[d.frameCounter];
    var lane := Store(u.lanes[k], d.packetCounter, d.packet).0;
    assert CellsMatch(lane.cells, f);
    assert Prefix(f, 0) == [];
    CopyFaithful(lane.cells, 0, f, []);
  }

  /** For any order of arrival, loss, repetition, change of array and
      regrowth, a frame handed on is the frame sent under its counter. */
  lemma {:induction false} StepFaithful(st: State, d: Datagram, sender: Sender)
    requires Valid(st) && Legal(d) && Genuine(d, sender) && Faithful(st, sender)
    ensures var r := Step(st, d);
            Faithful(r.st, sender)
              && (r.frame.Some? ==> r.frame.value == (d.frameCounter, Flat(sender[d.frameCounter])))
  {
    var (u, k, evicted) := Claim(st, d.frameCounter);
    if d.packetCounter < u.len {
      DepositFaithful(u, k, d, sender);
    }
  }

  /** A counter may stand for another frame once no packet of the old one is held. */
  predicate Succeeds(st: State, before: Sender, after: Sender)
    requires Valid(st)
  {
    forall k :: 0 <= k < 3 && !Nothing(st.lanes[k].cells) && st.lanes[k].counter in before ==>
      st.lanes[k].counter in after && after[st.lanes[k].counter] == before[st.lanes[k].counter]
  }

  predicate LegalRun(ds: seq<Datagram>) {
    forall k :: 0 <= k < |ds| ==> Legal(ds[k])
  }

  /** The frames handed on by a run. */
  function Run(st: State, ds: seq<Datagram>): seq<(nat, seq<byte>)>
    requires Valid(st) && LegalRun(ds)
    decreases |ds|
  {
    if ds == [] then []
    else
      var r := Step(st, ds[0]);
      (if r.frame.Some? then [r.frame.value] else []) + Run(r.st, ds[1..])
  }

  /** senders[k] is what is being sent when ds[k] arrives. */
  predicate FromSenders(st: State, ds: seq<Datagram>, senders: seq<Sender>)
    requires Valid(st) && LegalRun(ds)
    decreases |ds|
  {
    if ds == [] then senders == []
    else
      && |senders| == |ds| && Genuine(ds[0], senders[0])
      && (|ds| > 1 ==> Succeeds(Step(st, ds[0]).st, senders[0], senders[1]))
      && FromSenders(Step(st, ds[0]).st, ds[1..], senders[1..])
  }

  predicate Sent(frame: (nat, seq<byte>), sender: Sender) {
    frame.0 in sender && frame.1 == Flat(sender[frame.0])
  }

  predicate SentBySome(frame: (nat, seq<byte>), senders: seq<Sender>) {
    exists m :: 0 <= m < |senders| && Sent(frame, senders[m])
  }

  /** Over every run, every frame handed on is one that was being sent. */
  lemma {:induction false} RunFaithful(st: State, ds: seq<Datagram>, senders: seq<Sender>)
    requires Valid(st) && LegalRun(ds) && FromSenders(st, ds, senders)
    requires ds != [] ==> Faithful(st, senders[0])
    ensures forall frame :: frame in Run(st, ds) ==> SentBySome(frame, senders)
    decreases |ds|
  {
    if ds != [] {
      StepFaithful(st, ds[0], senders[0]);
      var r := Step(st, ds[0]);
      if |ds| > 1 {
        forall k | 0 <= k < 3 ensures LaneFaithful(r.st.lanes[k], senders[1]) {
          assert LaneFaithful(r.st.lanes[k], senders[0]);
        }
      }
      RunFaithful(r.st, ds[1..], senders[1..]);
      var rest := Run(r.st, ds[1..]);
      forall frame | frame in Run(st, ds) ensures SentBySome(frame, senders) {
        if frame in rest {
          var m :| 0 <= m < |senders[1..]| && Sent(frame, senders[1..][m]);
          assert Sent(frame, senders[m + 1]);
        } else {
          assert Sent(frame, senders[0]);
        }
      }
    }
  }

  // ---- Exactly when a frame is handed on ----

  /** Payload bytes held from index i on. */
  function Bytes(cells: Cells, i: nat): nat
    requires i <= |cells|
    decreases |cells| - i
  {
    if i == |cells| then 0 else (if cells[i].Some? then |cells[i].value.payload| else 0) + Bytes(cells, i + 1)
  }

  /** What the byte count holds beyond the packets now in the array. */
  function Stale(lane: Lane): nat {
    (lane.bytes - Bytes(lane.cells, 0)) % UINT32_RANGE
  }

  predicate AllPresent(cells: Cells, f: SentFrame) {
    |f| <= |cells| && forall k :: 0 <= k < |f| ==> cells[k].Some?
  }

  predicate NoneEmpty(f: SentFrame) {
    forall k :: 0 <= k < |f| ==> f[k] != []
  }

  lemma {:induction false} BytesUpdate(cells: Cells, i: nat, k: nat, cell: Option<Packet>)
    requires i <= k < |cells|
    ensures Bytes(cells[k := cell], i) == Bytes(cells, i) - (if cells[k].Some? then |cells[k].value.payload| else 0)
                                          + if cell.Some? then |cell.value.payload| else 0
    decreases |cells| - i
  {
    if i < k {
      BytesUpdate(cells, i + 1, k, cell);
    } else {
      BytesAfter(cells, k + 1, k, cell);
    }
  }

  lemma {:induction false} BytesAfter(cells: Cells, i: nat, k: nat, cell: Option<Packet>)
    requires k < i <= |cells|
    ensures Bytes(cells[k := cell], i) == Bytes(cells, i)
    decreases |cells| - i
  {
    if i < |cells| {
      BytesAfter(cells, i + 1, k, cell);
    }
  }

  /** From index i on, the array holds all the bytes of the frame exactly when
      it holds all its packets. */
  lemma {:induction false} FullIffAllPresent(cells: Cells, f: SentFrame, i: nat)
    requires i <= |cells| && CellsMatch(cells, f) && NoneEmpty(f)
    ensures |Prefix(f, i)| + Bytes(cells, i) <= |Flat(f)|
    ensures |Prefix(f, i)| + Bytes(cells, i) == |Flat(f)| <==>
            |f| <= |cells| && forall k :: i <= k < |f| ==> cells[k].Some?
    decreases |cells| - i
  {
    PrefixGrows(f, i);
    if i < |cells| {
      FullIffAllPresent(cells, f, i + 1);
    } else if i < |f| {
      PrefixGrows(f, i + 1);
    }
  }

  /** Copying goes all the way when the bytes held fit the frame. */
  lemma {:induction false} CopyLength(cells: Cells, i: nat, total: nat, done: seq<byte>)
    requires i <= |cells| && |done| + Bytes(cells, i) <= total
    ensures |Copy(cells, i, total, done).2| == |done| + Bytes(cells, i)
    decreases |cells| - i
  {
    if i < |cells| {
      if cells[i].None? {
        CopyLength(cells, i + 1, total, done);
      } else {
        BytesAfter(cells, i + 1, i, None);
        var more := done + cells[i].value.payload;
        if |more| != total {
          CopyLength(cells[i := None], i + 1, total, more);
        }
      }
    }
  }

  lemma {:induction false} StoreKeepsStale(lane: Lane, k: nat, packet: Packet)
    requires k < |lane.cells| && lane.bytes < UINT32_RANGE && |packet.payload| < UINT16_RANGE
    requires lane.cells[k].Some? ==> |lane.cells[k].value.payload| == |packet.payload|
    ensures Stale(Store(lane, k, packet).0) == Stale(lane)
  {
    BytesUpdate(lane.cells, 0, k, Some(packet));
  }

  /** A packet makes its frame go out exactly when it was the last one missing
      and the byte count held nothing beyond the packets in the array. */
  lemma {:induction false} DeliversIff(u: State, k: nat, d: Datagram, f: SentFrame)
    requires Valid(u) && k < 3 && d.packetCounter < u.len && Legal(d)
    requires CellsMatch(u.lanes[k].cells, f) && NoneEmpty(f)
    requires d.packetCounter < |f| && d.packet.payload == f[d.packetCounter] && d.totalLength == |Flat(f)|
    ensures Deposit(u, k, d).frame.Some? <==>
            AllPresent(u.lanes[k].cells[d.packetCounter := Some(d.packet)], f) && Stale(u.lanes[k]) == 0
  {
    var lane := Store(u.lanes[k], d.packetCounter, d.packet).0;
    StoreKeepsStale(u.lanes[k], d.packetCounter, d.packet);
    FullIffAllPresent(lane.cells, f, 0);
    assert Prefix(f, 0) == [];
    CopyLength(lane.cells, 0, d.totalLength, []);
  }

  /** A frame just begun in an array has nothing stale. */
  lemma {:induction false} NewLaneIsClean(st: State, frameCounter: nat)
    requires Valid(st) && LaneOf(st, frameCounter).None?
    ensures Stale(Claim(st, frameCounter).0.lanes[Claim(st, frameCounter).1]) == 0
  {
    BytesOfNothing(Empty(st.len), 0);
  }

  lemma {:induction false} BytesOfNothing(cells: Cells, i: nat)
    requires i <= |cells| && Nothing(cells)
    ensures Bytes(cells, i) == 0
    decreases |cells| - i
  {
    if i < |cells| {
      BytesOfNothing(cells, i + 1);
    }
  }

  /** Regrowth leaves every byte count as it was, with no packet to account
      for it. */
  lemma {:induction false} RegrowthLeavesStaleBytes(u: State, k: nat)
    requires Valid(u) && k < 3
    ensures Stale(Regrown(u).lanes[k]) == u.lanes[k].bytes
  {
    BytesOfNothing(Regrown(u).lanes[k].cells, 0);
  }

  /** Copying in full leaves no packet behind. */
  lemma {:induction false} CopyEmpties(cells: Cells, i: nat, total: nat, done: seq<byte>)
    requires i <= |cells| && |done| + Bytes(cells, i) <= total
    requires forall k :: 0 <= k < |cells| && cells[k].Some? ==> k >= i && cells[k].value.payload != []
    ensures Nothing(Copy(cells, i, total, done).0)
    decreases |cells| - i
  {
    if i < |cells| {
      if cells[i].None? {
        CopyEmpties(cells, i + 1, total, done);
      } else {
        BytesAfter(cells, i + 1, i, None);
        var more := done + cells[i].value.payload;
        if |more| != total {
          CopyEmpties(cells[i := None], i + 1, total, more);
        } else {
          BytesZero(cells[i := None], i + 1);
        }
      }
    }
  }

  lemma {:induction false} BytesZero(cells: Cells, i: nat)
    requires i <= |cells| && Bytes(cells, i) == 0
    ensures forall k :: i <= k < |cells| && cells[k].Some? ==> cells[k].value.payload == []
    decreases |cells| - i
  {
    if i < |cells| {
      BytesZero(cells, i + 1);
    }
  }

  lemma {:induction false} CopyLeavesNoBytes(cells: Cells, f: SentFrame)
    requires CellsMatch(cells, f) && NoneEmpty(f)
    ensures Bytes(Copy(cells, 0, |Flat(f)|, []).0, 0) == 0
  {
    assert Prefix(f, 0) == [];
    FullIffAllPresent(cells, f, 0);
    CopyEmpties(cells, 0, |Flat(f)|, []);
    BytesOfNothing(Copy(cells, 0, |Flat(f)|, []).0, 0);
  }

  /** Putting a frame together empties the array but not its byte count. */
  lemma {:induction false} CompletionLeavesStaleBytes(lane: Lane, f: SentFrame)
    requires CellsMatch(lane.cells, f) && NoneEmpty(f) && f != []
    requires lane.bytes == |Flat(f)| < UINT32_RANGE
    ensures Stale(lane.(cells := Copy(lane.cells, 0, lane.bytes, []).0)) == lane.bytes != 0
  {
    CopyLeavesNoBytes(lane.cells, f);
  }

  /** Once its byte count is stale, an array hands on nothing more for its
      frame: in particular no frame goes out twice from one array. */
  lemma {:induction false} StaleStays(u: State, k: nat, d: Datagram, f: SentFrame)
    requires Valid(u) && k < 3 && d.packetCounter < u.len && Legal(d)
    requires CellsMatch(u.lanes[k].cells, f) && NoneEmpty(f)
    requires d.packetCounter < |f| && d.packet.payload == f[d.packetCounter] && d.totalLength == |Flat(f)|
    ensures Stale(u.lanes[k]) != 0 || Deposit(u, k, d).frame.Some? ==> Stale(Deposit(u, k, d).st.lanes[k]) != 0
  {
    DeliversIff(u, k, d, f);
    var lane := Store(u.lanes[k], d.packetCounter, d.packet).0;
    StoreKeepsStale(u.lanes[k], d.packetCounter, d.packet);
    if lane.bytes == d.totalLength {
      CompletionLeavesStaleBytes(lane, f);
    }
  }

  /** The state after a run. */
  function End(st: State, ds: seq<Datagram>): (e: State)
    requires Valid(st) && LegalRun(ds)
    ensures Valid(e)
    decreases |ds|
  {
    if ds == [] then st else End(Step(st, ds[0]).st, ds[1..])
  }

  const SPLIT: SentFrame := [[1], [2, 3]]

  function Ones(n: nat): (f: SentFrame)
    ensures |f| == n && forall k :: 0 <= k < n ==> f[k] == [1]
  {
    seq(n, _ => [1])
  }

  lemma {:induction false} OnesLength(n: nat)
    ensures |Flat(Ones(n))| == n
  {
    if n > 0 {
      assert Ones(n)[..n - 1] == Ones(n - 1);
      OnesLength(n - 1);
    }
  }

  const SENDER: Sender := map[7 := SPLIT, 8 := Ones(513)]

  const FIRST: Datagram := Datagram(7, 0, 3, Packet(0, [1]))

  const FAR: Datagram := Datagram(8, 512, 513, Packet(1, [1]))

  const SECOND: Datagram := Datagram(7, 1, 3, Packet(2, [2, 3]))

  lemma {:induction false} AllGenuine()
    ensures Legal(FIRST) && Legal(FAR) && Legal(SECOND)
    ensures Genuine(FIRST, SENDER) && Genuine(FAR, SENDER) && Genuine(SECOND, SENDER)
  {
    OnesLength(513);
    assert SPLIT[..1] == [[1]] && [[1]][..0] == [];
    assert Flat([[1]]) == [1];
    assert Flat(SPLIT) == [1, 2, 3];
  }

  /** The datagrams lead from one state to another, and nothing is handed on. */
  predicate LeadsTo(st: State, ds: seq<Datagram>, e: State) {
    Valid(st) && LegalRun(ds) && End(st, ds) == e && Run(st, ds) == []
  }

  lemma {:induction false} OneBefore(st: State, d: Datagram, ds: seq<Datagram>, e: State)
    requires Valid(st) && Legal(d) && Step(st, d).frame.None? && LeadsTo(Step(st, d).st, ds, e)
    ensures LeadsTo(st, [d] + ds, e)
  {
    assert ([d] + ds)[1..] == ds;
  }

  /** The first packet of frame 7 arrives, and then one of frame 8 that makes
      the arrays grow: array 0 is left with a byte and no packet. */
  lemma {:induction false} RegrowthStrands()
    ensures Legal(FIRST) && Legal(FAR)
    ensures var r := Step(Start(), FIRST);
            var q := Step(r.st, FAR);
            && r.frame.None? && q.frame.None?
            && q.st.len == 1024 && q.st.lanes[0] == Lane(7, 1, Empty(1024))
  {
    var st := Step(Start(), FIRST).st;
    assert st.lanes[0].counter == 7 && st.lanes[0].bytes == 1;
    assert st.lanes[1].counter == -1 && st.lanes[2].counter == -1;
    assert Farthest(st, 8) == 1;
  }

  lemma {:induction false} TooManyBytes(st: State) returns (e: State)
    requires Valid(st) && st.len == 1024 && st.lanes[0] == Lane(7, 1, Empty(1024))
    ensures LeadsTo(st, [FIRST] + ([SECOND] + []), e) && AllPresent(e.lanes[0].cells, SPLIT)
  {
    var r := Step(st, FIRST);
    assert r.st.lanes[0] == Lane(7, 2, Empty(1024)[0 := Some(FIRST.packet)]);
    e := Step(r.st, SECOND).st;
    assert LeadsTo(e, [], e);
    OneBefore(r.st, SECOND, [], e);
    OneBefore(st, FIRST, [SECOND] + [], e);
  }

  lemma {:induction false} StrandedRun() returns (e: State)
    ensures LeadsTo(Start(), [FIRST] + ([FAR] + ([FIRST] + ([SECOND] + []))), e) && AllPresent(e.lanes[0].cells, SPLIT)
  {
    RegrowthStrands();
    var st1 := Step(Start(), FIRST).st;
    var rest := [FIRST] + ([SECOND] + []);
    e := TooManyBytes(Step(st1, FAR).st);
    OneBefore(st1, FAR, rest, e);
    OneBefore(Start(), FIRST, [FAR] + rest, e);
  }

  /** It does happen: all packets of frame 7 are there, and it is not handed on. */
  lemma {:induction false} AllPresentYetNothing()
    ensures exists ds: seq<Datagram> ::
              && LegalRun(ds) && (forall d :: d in ds ==> Genuine(d, SENDER))
              && Run(Start(), ds) == [] && AllPresent(End(Start(), ds).lanes[0].cells, SPLIT)
  {
    AllGenuine();
    var e := StrandedRun();
    var ds := [FIRST] + ([FAR] + ([FIRST] + ([SECOND] + [])));
    assert forall d :: d in ds ==> d in [FIRST, FAR, SECOND];
  }

  // ---- Which frame is given up ----

  /** How long ago, in frames, a counter was current. */
  function Age(counter: int, frameCounter: nat): nat {
    (frameCounter - counter) % UINT16_RANGE
  }

  predicate Wrapped(counter: int, frameCounter: nat) {
    counter > frameCounter
  }

  /** An array never used, or one of a recent frame. */
  predicate Recent(counter: int, frameCounter: nat) {
    counter == -1 || (0 <= counter < UINT16_RANGE && 0 < Age(counter, frameCounter) < 0x8000)
  }

  predicate SomeUnused(st: State)
    requires Valid(st)
  {
    exists i :: 0 <= i < 3 && st.lanes[i].counter == -1
  }

  /** Giving up array k loses least: it has never been used, or all have been
      and its frame is the oldest. */
  predicate LosesLeast(st: State, frameCounter: nat, k: nat)
    requires Valid(st) && k < 3
  {
    if SomeUnused(st) then st.lanes[k].counter == -1
    else forall i :: 0 <= i < 3 ==> Age(st.lanes[i].counter, frameCounter) <= Age(st.lanes[k].counter, frameCounter)
  }

  /** For arrays never used or of recent frames, the one given up is the right
      one exactly when no counter is from before the 16-bit wrap-around, or
      just one is and all arrays have been used. */
  lemma {:induction false} LosesLeastIff(st: State, frameCounter: nat)
    requires Valid(st) && frameCounter < UINT16_RANGE
    requires forall i :: 0 <= i < 3 ==> Recent(st.lanes[i].counter, frameCounter)
    requires forall i, j :: 0 <= i < j < 3 ==> st.lanes[i].counter != st.lanes[j].counter || st.lanes[i].counter == -1
    ensures LosesLeast(st, frameCounter, Farthest(st, frameCounter)) <==>
            if SomeUnused(st) then forall i :: 0 <= i < 3 ==> !Wrapped(st.lanes[i].counter, frameCounter)
            else forall i, j :: 0 <= i < j < 3 ==>
                   !(Wrapped(st.lanes[i].counter, frameCounter) && Wrapped(st.lanes[j].counter, frameCounter))
  {
    RecentMeans(st.lanes[0].counter, frameCounter);
    RecentMeans(st.lanes[1].counter, frameCounter);
    RecentMeans(st.lanes[2].counter, frameCounter);
    assert SomeUnused(st) <==>
           st.lanes[0].counter == -1 || st.lanes[1].counter == -1 || st.lanes[2].counter == -1;
  }

  lemma {:induction false} RecentMeans(counter: int, frameCounter: nat)
    requires Recent(counter, frameCounter) && frameCounter < UINT16_RANGE
    ensures if counter == -1 then Distance(counter, frameCounter) == frameCounter + 1
            else if Wrapped(counter, frameCounter) then
              Age(counter, frameCounter) == UINT16_RANGE - Distance(counter, frameCounter) && frameCounter < 0x8000
            else Age(counter, frameCounter) == Distance(counter, frameCounter) <= frameCounter
  {
    if counter != -1 {
      AgeMeans(counter, frameCounter);
    }
  }

  lemma {:induction false} AgeMeans(counter: int, frameCounter: nat)
    requires 0 <= counter < UINT16_RANGE && frameCounter < UINT16_RANGE
    ensures Age(counter, frameCounter) ==
            if Wrapped(counter, frameCounter) then UINT16_RANGE - Distance(counter, frameCounter)
            else Distance(counter, frameCounter)
  {
  }

  /** The first packets of frames 0, 65535 and 65534, in this order. */
  function Opening(frameCounter: nat): (d: Datagram)
    requires frameCounter < UINT16_RANGE
    ensures Legal(d)
  {
    Datagram(frameCounter, 0, 2, Packet(0, [1]))
  }

  lemma {:induction false} OpeningTakes(st: State, frameCounter: nat)
    requires Valid(st) && st.len > 0 && frameCounter < UINT16_RANGE && LaneOf(st, frameCounter).None?
    ensures var k := Farthest(st, frameCounter);
            var r := Step(st, Opening(frameCounter)).st;
            && r.len == st.len && r.lanes[k].counter == frameCounter
            && forall i :: 0 <= i < 3 && i != k ==> r.lanes[i] == st.lanes[i]
  {
  }

  /** It does happen: for frame 1 the array of frame 65535 is given up, two
      frames old, and not that of frame 65534, three frames old. */
  lemma {:induction false} YoungerGivenUp()
    ensures var st := Step(Step(Step(Start(), Opening(0)).st, Opening(65535)).st, Opening(65534)).st;
            && LaneOf(st, 1).None? && Farthest(st, 1) == 1
            && st.lanes[1].counter == 65535 && Age(st.lanes[1].counter, 1) == 2
            && st.lanes[2].counter == 65534 && Age(st.lanes[2].counter, 1) == 3
  {
    OpeningTakes(Start(), 0);
    var s1 := Step(Start(), Opening(0)).st;
    OpeningTakes(s1, 65535);
    var s2 := Step(s1, Opening(65535)).st;
    OpeningTakes(s2, 65534);
  }

  /** And a frame in progress can be given up while two arrays have never been
      used: that of frame 65535 for frame 0. */
  lemma {:induction false} UsedGivenUp()
    ensures var st := Step(Start(), Opening(65535)).st;
            && LaneOf(st, 0).None? && Farthest(st, 0) == 0
            && st.lanes[0].counter == 65535 && Age(st.lanes[0].counter, 0) == 1
            && st.lanes[1].counter == -1 && st.lanes[2].counter == -1
  {
    OpeningTakes(Start(), 65535);
  }

  /** When a packet number beyond 32767 has come, the doubled length is 0, and
      from then on nothing is handed on. */
  lemma {:induction false} NoLengthNoFrames(st: State, ds: seq<Datagram>)
    requires Valid(st) && LegalRun(ds) && st.len == 0
    ensures Run(st, ds) == []
    decreases |ds|
  {
    if ds != [] {
      NoLengthNoFrames(Step(st, ds[0]).st, ds[1..]);
    }
  }
}
