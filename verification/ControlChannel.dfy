/** The two control connections, UDP and TCP (sdk/bta_eth.c): the connection
    monitor's steps and those of calls that send and receive, interleaved, for
    every outcome of the socket operations. A step is what happens between two
    points where another thread can look. */
module ControlChannel {

  /** BTA_ConnectionState, in the order of its values. */
  datatype Connection = Deactivated | Wanted | FirstAttempt | Reconnecting | Connected | Closed

  /** In use: the states in which messages go over a connection. */
  predicate Active(c: Connection) {
    c.FirstAttempt? || c.Reconnecting? || c.Connected?
  }

  predicate Established(c: Connection) {
    c.Reconnecting? || c.Connected?
  }

  datatype Channels = Channels(udp: Connection, udpSocket: bool, tcp: Connection, tcpSocket: bool)

  // ---- Sending and receiving ----

  datatype Outcome = Success | TimedOut | SocketError | SelectFailed

  /** transmit_2: over UDP if it is in use, else over TCP. */
  function Transmit(c: Channels, o: Outcome): (Channels, bool) {
    if Active(c.udp) then (if o.TimedOut? && c.udp.Connected? then c.(udp := Reconnecting) else c, o.Success?)
    else if c.tcp.Connected? || c.tcp.FirstAttempt? then (TcpAfter(c, o), o.Success?)
    else (c, false)
  }

  /** receive: a success shows that the connection works. */
  function Receive(c: Channels, o: Outcome): (Channels, bool) {
    if Active(c.udp) then
      if o.Success? then (c.(udp := Connected), true) else (Transmit(c, o).0, false)
    else if c.tcp.Connected? || c.tcp.FirstAttempt? then
      if o.Success? then (c.(tcp := Connected), true) else (TcpAfter(c, o), false)
    else (c, false)
  }

  /** What a failure does to the TCP connection. */
  function TcpAfter(c: Channels, o: Outcome): Channels {
    match o
    case Success => c
    case SelectFailed => if c.tcp.FirstAttempt? then c.(tcpSocket := false) else c
    case TimedOut => c.(tcpSocket := false, tcp := if c.tcp.Connected? then Reconnecting else c.tcp)
    case SocketError => c.(tcpSocket := false, tcp := if c.tcp.Connected? then Reconnecting else c.tcp)
  }

  // ---- The threads ----

  /** Where the connection monitor is. From a Lock state on to the matching
      Done it owns the control mutex. */
  datatype Monitor =
    | CheckUdp | UdpLock | UdpOpen | UdpSend | UdpReceive | UdpDone(ok: bool)
    | CheckTcp | TcpLock | TcpOpen | TcpSend | TcpReceive | TcpDone(ok: bool)
    | CheckAlive | AliveLock | AliveSend | AliveReceive | AliveDone
    | DetectLock | Detect
    | CloseUdp | CloseTcp | Ended

  datatype Owner = Free | OfMonitor | OfCaller

  datatype State = State(c: Channels, at: Monitor, owner: Owner)

  datatype Action =
    // the monitor's next step; `open` says whether the socket could be opened
    // up to the point of the first message, `understood` whether the answer
    // parsed, `stop` whether the thread was asked to close, `go` whether there
    // is more to receive, reason to probe, or reason to give a connection up
    | Step(open: bool, o: Outcome, understood: bool, stop: bool, go: bool)
    // a call takes the mutex, sends or receives any number of times, gives it back
    | CallLock | CallSend(o: Outcome) | CallReceive(o: Outcome) | CallUnlock

  function Lock(s: State, next: Monitor): State {
    if s.owner.Free? then s.(owner := OfMonitor, at := next) else s
  }

  function Unlock(s: State, next: Monitor): State {
    s.(owner := Free, at := next)
  }

  function MonitorStep(s: State, a: Action): State
    requires a.Step?
  {
    var c := s.c;
    match s.at
    case CheckUdp =>
      if a.stop then s.(at := CloseUdp)
      else s.(at := if c.udp != Deactivated && !c.udpSocket then UdpLock else CheckTcp)
    case UdpLock => Lock(s, UdpOpen)
    case UdpOpen =>
      if a.open then s.(c := c.(udpSocket := true, udp := FirstAttempt), at := UdpSend) else Unlock(s, CheckTcp)
    case UdpSend =>
      var (d, ok) := Transmit(c, a.o);
      s.(c := d, at := if ok then UdpReceive else UdpDone(false))
    case UdpReceive =>
      var (d, ok) := Receive(c, a.o);
      s.(c := d, at := UdpDone(ok && a.understood))
    case UdpDone(ok) =>
      if ok then Unlock(s, CheckTcp).(c := c.(tcp := Deactivated))
      else Unlock(s, CheckTcp).(c := c.(udp := Wanted, udpSocket := false))
    case CheckTcp =>
      if a.stop then s.(at := CloseUdp)
      else s.(at := if c.tcp != Deactivated && !c.tcpSocket then TcpLock else CheckAlive)
    case TcpLock => Lock(s, TcpOpen)
    case TcpOpen =>
      if a.open then s.(c := c.(tcpSocket := true, tcp := FirstAttempt), at := TcpSend) else Unlock(s, CheckAlive)
    case TcpSend =>
      var (d, ok) := Transmit(c, a.o);
      s.(c := d, at := if ok then TcpReceive else TcpDone(false))
    case TcpReceive =>
      var (d, ok) := Receive(c, a.o);
      s.(c := d, at := if ok && a.go then TcpReceive else TcpDone(ok && a.understood))
    case TcpDone(ok) =>
      if ok then Unlock(s, CheckAlive).(c := c.(udp := Deactivated))
      else Unlock(s, CheckAlive).(c := c.(tcp := Wanted))
    case CheckAlive =>
      if a.stop then s.(at := CloseUdp)
      else s.(at := if (c.tcp.Connected? || Established(c.udp)) && a.go then AliveLock else DetectLock)
    case AliveLock => Lock(s, AliveSend)
    case AliveSend =>
      var (d, ok) := Transmit(c, a.o);
      s.(c := d, at := if ok then AliveReceive else AliveDone)
    case AliveReceive =>
      var (d, ok) := Receive(c, a.o);
      s.(c := d, at := if ok && a.go then AliveReceive else AliveDone)
    case AliveDone => Unlock(s, DetectLock)
    case DetectLock => Lock(s, Detect)
    case Detect =>
      var d := if !a.go then c
               else if c.udp.Connected? then c.(udp := Reconnecting)
               else if c.tcp.Connected? then c.(tcp := Reconnecting, tcpSocket := false)
               else c;
      Unlock(s, CheckUdp).(c := d)
    case CloseUdp =>
      if !c.udpSocket then s.(at := CloseTcp)
      else if s.owner.Free? then s.(c := c.(udp := Closed, udpSocket := false), at := CloseTcp)
      else s
    case CloseTcp =>
      if !c.tcpSocket then s.(at := Ended)
      else if s.owner.Free? then s.(c := c.(tcp := Closed, tcpSocket := false), at := Ended)
      else s
    case Ended => s
  }

  function Next(s: State, a: Action): State {
    match a
    case Step(_, _, _, _, _) => MonitorStep(s, a)
    case CallLock => if s.owner.Free? then s.(owner := OfCaller) else s
    case CallSend(o) => if s.owner.OfCaller? then s.(c := Transmit(s.c, o).0) else s
    case CallReceive(o) => if s.owner.OfCaller? then s.(c := Receive(s.c, o).0) else s
    case CallUnlock => if s.owner.OfCaller? then s.(owner := Free) else s
  }

  // ---- What every state keeps ----

  predicate OneInUse(c: Channels) {
    !(Active(c.udp) && Active(c.tcp))
  }

  /** No attempt to connect is under way. */
  predicate Settled(c: Channels) {
    && !c.udp.FirstAttempt? && !c.tcp.FirstAttempt?
    && (Established(c.udp) ==> c.udpSocket && (c.tcp.Deactivated? || c.tcp.Closed?))
    && (Established(c.tcp) ==> c.udp.Deactivated? && !c.udpSocket)
    && (c.udp.Deactivated? || c.udp.Wanted? || c.udp.Closed? ==> !c.udpSocket)
    && (c.tcp.Connected? ==> c.tcpSocket) && (c.tcp.Reconnecting? ==> !c.tcpSocket)
  }

  predicate AttemptingUdp(m: Monitor) {
    m.UdpSend? || m.UdpReceive? || m.UdpDone?
  }

  predicate AttemptingTcp(m: Monitor) {
    m.TcpSend? || m.TcpReceive? || m.TcpDone?
  }

  predicate OwnedByMonitor(m: Monitor) {
    m.UdpOpen? || AttemptingUdp(m) || m.TcpOpen? || AttemptingTcp(m) || m.AliveSend? || m.AliveReceive?
      || m.AliveDone? || m.Detect?
  }

  predicate Closing(m: Monitor) {
    m.CloseUdp? || m.CloseTcp? || m.Ended?
  }

  predicate Inv(s: State) {
    var c := s.c;
    && (s.owner.OfMonitor? <==> OwnedByMonitor(s.at))
    && (if AttemptingUdp(s.at) then
          && Active(c.udp) && c.udpSocket && (c.tcp.Deactivated? || c.tcp.Wanted?)
          && (s.at == UdpDone(true) ==> c.udp.Connected?)
        else if AttemptingTcp(s.at) then
          && Active(c.tcp) && (c.udp.Deactivated? || c.udp.Wanted?) && !c.udpSocket
          && (s.at == TcpDone(true) ==> c.tcp.Connected? && c.tcpSocket)
          && (s.at.TcpSend? ==> c.tcp.FirstAttempt? && c.tcpSocket)
          && (s.at.TcpReceive? ==> !c.tcp.Reconnecting? && c.tcpSocket)
        else Settled(c))
    && (s.at.UdpLock? || s.at.UdpOpen? ==> c.udp.Wanted? && !c.udpSocket && (c.tcp.Deactivated? || c.tcp.Wanted?))
    && (s.at.TcpLock? || s.at.TcpOpen? ==>
      (c.tcp.Wanted? || c.tcp.Reconnecting?) && (c.udp.Deactivated? || c.udp.Wanted?) && !c.udpSocket && !c.tcpSocket)
    && (!Closing(s.at) ==> !c.udp.Closed? && !c.tcp.Closed?)
    && (s.at.CloseTcp? || s.at.Ended? ==> !c.udpSocket) && (s.at.Ended? ==> !c.tcpSocket)
  }

  lemma {:induction false} CallKeeps(s: State, a: Action)
    requires Inv(s) && !a.Step?
    ensures Inv(Next(s, a))
  {
  }

  lemma {:induction false} TcpStepKeeps(s: State, a: Action)
    requires Inv(s) && a.Step?
    requires s.at.CheckTcp? || s.at.TcpLock? || s.at.TcpOpen? || AttemptingTcp(s.at)
    ensures Inv(MonitorStep(s, a))
  {
  }

  lemma {:induction false} OtherStepKeeps(s: State, a: Action)
    requires Inv(s) && a.Step?
    requires !(s.at.CheckUdp? || s.at.UdpLock? || s.at.UdpOpen? || AttemptingUdp(s.at))
    requires !(s.at.CheckTcp? || s.at.TcpLock? || s.at.TcpOpen? || AttemptingTcp(s.at))
    ensures Inv(MonitorStep(s, a))
  {
  }

  lemma {:induction false} NextKeeps(s: State, a: Action)
    requires Inv(s)
    ensures Inv(Next(s, a))
  {
    if !a.Step? {
      CallKeeps(s, a);
    } else if s.at.CheckTcp? || s.at.TcpLock? || s.at.TcpOpen? || AttemptingTcp(s.at) {
      TcpStepKeeps(s, a);
    } else if !(s.at.CheckUdp? || s.at.UdpLock? || s.at.UdpOpen? || AttemptingUdp(s.at)) {
      OtherStepKeeps(s, a);
    }
  }

  // ---- Whole runs ----

  function Run(s: State, actions: seq<Action>): State
    decreases |actions|
  {
    if actions == [] then s else Run(Next(s, actions[0]), actions[1..])
  }

  /** What opening sets up: each connection as the user wants it. */
  function Start(udpWanted: bool, tcpWanted: bool): State {
    var udp := if udpWanted then Wanted else Deactivated;
    var tcp := if tcpWanted then Wanted else Deactivated;
    State(Channels(udp, false, tcp, false), CheckUdp, Free)
  }

  lemma {:induction false} StartIsInv(udpWanted: bool, tcpWanted: bool)
    ensures Inv(Start(udpWanted, tcpWanted))
  {
  }

  /** Over every run: UDP and TCP control are never both in use. */
  lemma {:induction false} NeverBothInUse(s: State, actions: seq<Action>)
    requires Inv(s)
    ensures Inv(Run(s, actions)) && OneInUse(Run(s, actions).c)
    decreases |actions|
  {
    if actions == [] {
    } else {
      NextKeeps(s, actions[0]);
      NeverBothInUse(Next(s, actions[0]), actions[1..]);
    }
  }

  /** So it is from the moment of opening, whatever the user wants. */
  lemma {:induction false} NeverBothInUseFromStart(udpWanted: bool, tcpWanted: bool, actions: seq<Action>)
    ensures OneInUse(Run(Start(udpWanted, tcpWanted), actions).c)
  {
    StartIsInv(udpWanted, tcpWanted);
    NeverBothInUse(Start(udpWanted, tcpWanted), actions);
  }

  /** A connection that got through its first message. */
  predicate UdpUp(s: State) {
    !AttemptingUdp(s.at) && Established(s.c.udp)
  }

  predicate TcpUp(s: State) {
    !AttemptingTcp(s.at) && Established(s.c.tcp)
  }

  lemma {:induction false} ClosingIsFinal(s: State, actions: seq<Action>)
    requires Closing(s.at)
    ensures Closing(Run(s, actions).at)
    decreases |actions|
  {
    if actions != [] {
      ClosingIsFinal(Next(s, actions[0]), actions[1..]);
    }
  }

  /** Once UDP control is up, it stays up and TCP control stays deactivated
      until shutdown. */
  lemma {:induction false} UdpUpExcludesTcp(s: State, actions: seq<Action>)
    requires Inv(s) && UdpUp(s) && !Closing(Run(s, actions).at)
    ensures UdpUp(Run(s, actions)) && Run(s, actions).c.tcp == Deactivated
    decreases |actions|
  {
    if actions == [] {
      assert Settled(s.c);
    } else {
      var n := Next(s, actions[0]);
      if Closing(n.at) {
        ClosingIsFinal(n, actions[1..]);
      }
      NextKeeps(s, actions[0]);
      UdpUpExcludesTcp(n, actions[1..]);
    }
  }

  /** Once TCP control is up, UDP control is deactivated for good, even while
      TCP reconnects. */
  lemma {:induction false} TcpUpExcludesUdp(s: State, actions: seq<Action>)
    requires Inv(s) && (TcpUp(s) || (s.c.udp == Deactivated && !s.c.udpSocket))
    ensures Run(s, actions).c.udp == Deactivated
    decreases |actions|
  {
    if actions != [] {
      NextKeeps(s, actions[0]);
      TcpUpExcludesUdp(Next(s, actions[0]), actions[1..]);
    }
  }

  // ---- After a failed attempt over TCP ----

  /** TCP control wanted, but with a socket left open by a failed attempt. */
  predicate HalfOpen(s: State) {
    !AttemptingTcp(s.at) && s.c.tcp == Wanted && s.c.tcpSocket
  }

  /** TCP control is out of the running: half open, given up in favour of UDP,
      or shut down. */
  predicate OutOfTheRunning(s: State) {
    && !AttemptingTcp(s.at) && !s.at.TcpLock? && !s.at.TcpOpen?
    && (HalfOpen(s) || s.c.tcp == Deactivated || s.c.tcp == Closed || (s.c.tcp == Wanted && Closing(s.at)))
  }

  lemma {:induction false} StaysOut(s: State, a: Action)
    requires Inv(s) && OutOfTheRunning(s)
    ensures OutOfTheRunning(Next(s, a))
  {
  }

  /** With the socket left open, whatever UDP control does, no run ever makes
      another attempt over TCP. */
  lemma {:induction false} HalfOpenIsNeverRetried(s: State, actions: seq<Action>)
    requires Inv(s) && OutOfTheRunning(s)
    ensures var e := Run(s, actions);
            OutOfTheRunning(e) && !AttemptingTcp(e.at) && !Active(e.c.tcp)
    decreases |actions|
  {
    if actions != [] {
      NextKeeps(s, actions[0]);
      StaysOut(s, actions[0]);
      HalfOpenIsNeverRetried(Next(s, actions[0]), actions[1..]);
    }
  }

  /** How many steps the monitor is from opening the TCP socket, if nothing
      comes in between. */
  function Ahead(m: Monitor): nat {
    match m
    case TcpOpen => 0
    case TcpLock => 1
    case CheckTcp => 2
    case UdpOpen => 3
    case UdpLock => 4
    case CheckUdp => 5
    case Detect => 6
    case DetectLock => 7
    case AliveDone => 8
    case AliveReceive => 9
    case AliveSend => 10
    case AliveLock => 11
    case CheckAlive => 12
    case _ => 13
  }

  /** Between attempts, TCP control wanted or lost. */
  predicate WantsTcp(s: State) {
    && !AttemptingUdp(s.at) && !AttemptingTcp(s.at) && !Closing(s.at)
    && (s.c.tcp == Wanted || s.c.tcp == Reconnecting)
  }

  /** And its socket closed. */
  predicate MayTry(s: State) {
    WantsTcp(s) && !s.c.tcpSocket
  }

  /** What brings the monitor nearer to an attempt over TCP: a call gives the
      mutex back, or else the monitor's next step, with UDP not to be opened. */
  function Nearer(s: State): Action {
    if s.owner.OfCaller? then CallUnlock
    else Step(s.at.TcpOpen?, SocketError, false, false, false)
  }

  lemma {:induction false} NearerIsNearer(s: State)
    requires Inv(s) && MayTry(s)
    ensures var n := Next(s, Nearer(s));
            if s.at.TcpOpen? then n.at.TcpSend?
            else
              && MayTry(n) && Ahead(n.at) <= Ahead(s.at)
              && (s.owner.OfCaller? ==> !n.owner.OfCaller?)
              && (!s.owner.OfCaller? ==> !n.owner.OfCaller? && Ahead(n.at) < Ahead(s.at))
  {
  }

  /** From wherever the monitor is, an attempt over TCP can be reached. */
  lemma {:induction false} AttemptFollows(s: State) returns (actions: seq<Action>)
    requires Inv(s) && MayTry(s)
    ensures Run(s, actions).at.TcpSend?
    decreases Ahead(s.at) + if s.owner.OfCaller? then 1 else 0
  {
    var a := Nearer(s);
    NearerIsNearer(s);
    NextKeeps(s, a);
    if s.at.TcpOpen? {
      actions := [a];
    } else {
      var rest := AttemptFollows(Next(s, a));
      actions := [a] + rest;
    }
  }

  lemma {:induction false} RunOn(s: State, first: seq<Action>, after: seq<Action>)
    ensures Run(s, first + after) == Run(Run(s, first), after)
    decreases |first|
  {
    if first == [] {
      assert first + after == after;
    } else {
      assert (first + after)[1..] == first[1..] + after;
      RunOn(Next(s, first[0]), first[1..], after);
    }
  }

  lemma {:induction false} RunOfThree(s: State, a: Action)
    ensures Run(s, [a, a, a]) == Next(Next(Next(s, a), a), a)
  {
    var n := Next(s, a);
    assert [a, a, a][1..] == [a, a] && [a, a][1..] == [a] && [a][1..] == [];
    assert Run(n, [a, a]) == Run(Next(n, a), [a]);
    assert Run(Next(n, a), [a]) == Run(Next(Next(n, a), a), []);
  }

  /** The first message goes through, the answer arrives, and it parses. */
  lemma {:induction false} AttemptSucceeds(s: State)
    requires Inv(s) && s.at.TcpSend?
    ensures TcpUp(Run(s, [WELL, WELL, WELL])) && Run(s, [WELL, WELL, WELL]).c.tcp == Connected
  {
    RunOfThree(s, WELL);
    assert Next(s, WELL).at.TcpReceive?;
    assert Next(Next(s, WELL), WELL).at == TcpDone(true);
  }

  const WELL: Action := Step(true, Success, true, false, false)

  /** TCP control has come up, or come back. */
  predicate TcpConnected(s: State) {
    !AttemptingTcp(s.at) && s.c.tcp == Connected
  }

  /** Between attempts, with TCP control wanted or lost: it can be attempted
      again, and can come up, if and only if its socket is closed. */
  lemma {:induction false} TriedAgainIff(s: State)
    requires Inv(s) && WantsTcp(s)
    ensures (exists actions :: AttemptingTcp(Run(s, actions).at)) <==> !s.c.tcpSocket
    ensures (exists actions :: TcpConnected(Run(s, actions))) <==> !s.c.tcpSocket
  {
    if s.c.tcpSocket {
      forall actions ensures !AttemptingTcp(Run(s, actions).at) && !TcpConnected(Run(s, actions)) {
        HalfOpenIsNeverRetried(s, actions);
      }
    } else {
      var actions := AttemptFollows(s);
      NeverBothInUse(s, actions);
      AttemptSucceeds(Run(s, actions));
      RunOn(s, actions, [WELL, WELL, WELL]);
    }
  }

  // ---- A connection that is lost ----

  /** The monitor has reason to give a connection up: the one that is up becomes
      one to be connected again, over TCP with its socket closed. */
  lemma {:induction false} LossIsNoted(s: State, a: Action)
    requires Inv(s) && s.at.Detect? && a.Step? && a.go
    ensures var n := Next(s, a);
            && n.at == CheckUdp && n.owner == Free
            && (s.c.udp == Connected ==> n.c == s.c.(udp := Reconnecting))
            && (s.c.tcp == Connected ==> n.c == s.c.(tcp := Reconnecting, tcpSocket := false))
            && (s.c.udp != Connected && s.c.tcp != Connected ==> n.c == s.c)
  {
  }

  /** A message is sent or received, with this outcome, by a call or as the
      monitor's probe. */
  predicate Uses(s: State, a: Action, o: Outcome) {
    match a
    case CallSend(outcome) => s.owner == OfCaller && outcome == o
    case CallReceive(outcome) => s.owner == OfCaller && outcome == o
    case Step(_, outcome, _, _, _) => (s.at.AliveSend? || s.at.AliveReceive?) && outcome == o
    case _ => false
  }

  /** A connection that fails in use is noted as lost as well; one over UDP that
      answers is up. */
  lemma {:induction false} FailureIsNoted(s: State, a: Action, o: Outcome)
    requires Inv(s) && Uses(s, a, o)
    ensures s.c.udp == Connected && o == TimedOut ==> Next(s, a).c == s.c.(udp := Reconnecting)
    ensures s.c.tcp == Connected && (o == TimedOut || o == SocketError) ==>
              Next(s, a).c == s.c.(tcp := Reconnecting, tcpSocket := false)
    ensures o == Success ==>
              var answers := a.CallReceive? || (a.Step? && s.at.AliveReceive?);
              Next(s, a).c == if answers && Established(s.c.udp) then s.c.(udp := Connected) else s.c
  {
  }

  /** Some actions bring TCP control back. */
  ghost predicate TcpCanComeBack(s: State) {
    exists actions :: TcpConnected(Run(s, actions))
  }

  /** TCP control that has come up can come up again, whatever has happened to
      it since, until shutdown; while it is lost its socket is closed. */
  lemma {:induction false} LostTcpCanComeBack(s: State, actions: seq<Action>)
    requires Inv(s) && TcpUp(s)
    ensures var e := Run(s, actions);
            !AttemptingTcp(e.at) && !Closing(e.at) && e.c.tcp == Reconnecting ==>
              !e.c.tcpSocket && TcpCanComeBack(e)
  {
    NeverBothInUse(s, actions);
    var e := Run(s, actions);
    if !AttemptingTcp(e.at) && !Closing(e.at) && e.c.tcp == Reconnecting {
      assert WantsTcp(e);
      TriedAgainIff(e);
    }
  }

  /** UDP control that is lost comes back with the first answer that a call
      receives. */
  lemma {:induction false} LostUdpComesBack(s: State)
    requires Inv(s) && s.owner == Free && !AttemptingUdp(s.at) && s.c.udp == Reconnecting
    ensures Run(s, [CallLock, CallReceive(Success), CallUnlock]) == s.(c := s.c.(udp := Connected))
  {
    var actions := [CallLock, CallReceive(Success), CallUnlock];
    assert actions[1..] == [CallReceive(Success), CallUnlock] && actions[1..][1..] == [CallUnlock];
    assert [CallUnlock][1..] == [];
    var one := Next(s, CallLock);
    var two := Next(one, CallReceive(Success));
    assert Run(two, [CallUnlock]) == Run(Next(two, CallUnlock), []);
    assert Run(one, actions[1..]) == Run(two, [CallUnlock]);
  }

  /** UDP control that is wanted comes up when the socket can be opened and the
      first message is answered. */
  lemma {:induction false} WantedUdpComesUp(s: State)
    requires Inv(s) && s.at == CheckUdp && s.owner == Free && s.c.udp == Wanted
    ensures var e := Run(Run(s, [WELL, WELL, WELL]), [WELL, WELL, WELL]);
            e.at == CheckTcp && e.owner == Free && e.c == Channels(Connected, true, Deactivated, s.c.tcpSocket)
  {
    UdpOpens(s);
    UdpAnswers(Run(s, [WELL, WELL, WELL]));
  }

  lemma {:induction false} UdpOpens(s: State)
    requires Inv(s) && s.at == CheckUdp && s.owner == Free && s.c.udp == Wanted
    ensures Run(s, [WELL, WELL, WELL]) ==
            State(Channels(FirstAttempt, true, s.c.tcp, s.c.tcpSocket), UdpSend, OfMonitor)
  {
    RunOfThree(s, WELL);
    assert Next(s, WELL).at == UdpLock;
    assert Next(Next(s, WELL), WELL).at == UdpOpen;
  }

  lemma {:induction false} UdpAnswers(s: State)
    requires s.at == UdpSend && s.c.udp == FirstAttempt
    ensures Run(s, [WELL, WELL, WELL]) == State(s.c.(udp := Connected, tcp := Deactivated), CheckTcp, Free)
  {
    RunOfThree(s, WELL);
    assert Next(s, WELL).at == UdpReceive;
    assert Next(Next(s, WELL), WELL).at == UdpDone(true);
  }

  /** When the monitor has ended, no socket is open any more, in every run. */
  lemma {:induction false} ShutdownClosesSockets(udpWanted: bool, tcpWanted: bool, actions: seq<Action>)
    ensures var e := Run(Start(udpWanted, tcpWanted), actions);
            e.at.Ended? ==> !e.c.udpSocket && !e.c.tcpSocket
  {
    StartIsInv(udpWanted, tcpWanted);
    NeverBothInUse(Start(udpWanted, tcpWanted), actions);
  }

  /** Such a socket is left open exactly when the attempt failed after the
      socket had last been found in order: the answer was not understood, or
      waiting for the rest of it timed out in select. */
  lemma {:induction false} LeftOpenIff(s: State, a: Action)
    requires Inv(s) && s.at.TcpReceive? && a.Step? && MonitorStep(s, a).at == TcpDone(false)
    ensures MonitorStep(s, a).c.tcpSocket <==> a.o.Success? || (a.o.SelectFailed? && s.c.tcp.Connected?)
  {
  }

  /** The message goes through, but the answer does not parse. */
  const GARBLED: Action := Step(true, Success, false, false, false)

  lemma {:induction false} GarbledLeavesOpen(s: State)
    requires Inv(s) && s.at.TcpSend?
    ensures HalfOpen(Run(s, [GARBLED, GARBLED, GARBLED]))
  {
    RunOfThree(s, GARBLED);
    assert Next(s, GARBLED).at.TcpReceive?;
    assert Next(Next(s, GARBLED), GARBLED).at == TcpDone(false);
  }

  /** It does happen, also when both connections are wanted: an answer that
      does not parse. */
  lemma {:induction false} AnswerNotUnderstood(udpWanted: bool)
    ensures exists actions: seq<Action> :: HalfOpen(Run(Start(udpWanted, true), actions))
  {
    var s := Start(udpWanted, true);
    StartIsInv(udpWanted, true);
    var actions := AttemptFollows(s);
    NeverBothInUse(s, actions);
    GarbledLeavesOpen(Run(s, actions));
    RunOn(s, actions, [GARBLED, GARBLED, GARBLED]);
  }
}
