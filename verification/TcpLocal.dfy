/** Events that involve no arriving segment: timers and the application's calls. */
module TcpLocal {
  import opened Words
  import opened TcpConn
  import opened TcpInvariant
  import opened TcpEndpoint

  /** e' is what the event makes of e, and everything sent on the way is true. */
  predicate Good(e: End, ev: Event, e': End) {
    && e' == After(e, ev)
    && Own(e') && Continues(e, e')
    && AllTruthful(e', Step(e.conn, ev).sent)
  }

  predicate Quiet(e: End, e': End) {
    e'.rcv == e.rcv && e'.conn.rcvNxt == e.conn.rcvNxt && e'.got == e.got && e'.una == e.una
    && e'.conn.recvFin == e.conn.recvFin
  }

  /** The word differences of After give back the unbounded counters. */
  lemma CountersAfter(e: End, ev: Event, e': End)
    requires Own(e) && Own(e') && Continues(e, e')
    requires e'.conn == Step(e.conn, ev).conn
    requires e'.una - e.una < 0x1_0000_0000 && e'.nxt - e.nxt < 0x1_0000_0000
    ensures After(e, ev).una == e'.una && After(e, ev).nxt == e'.nxt
  {
    hide Wrap32, Step;
    Delta(e.conn.iss + e'.una, e.conn.iss + e.una);
    Delta(e.conn.iss + e'.nxt, e.conn.iss + e.nxt);
  }

  lemma QuietAfter(e: End, ev: Event, e': End)
    requires !ev.Arrive?
    requires Own(e) && Own(e') && Continues(e, e') && Quiet(e, e')
    requires e'.conn == Step(e.conn, ev).conn && e'.nxt - e.nxt < 0x1_0000_0000
    requires e'.written == After(e, ev).written && e'.read == After(e, ev).read
    requires e.conn.phase == SynSent ==> e'.conn.phase != Established
    ensures e' == After(e, ev)
  {
    hide Wrap32, Step;
    Delta(0, 0);
    CountersAfter(e, ev, e');
  }

  lemma FailOwn(e: End, fault: Fault, reset: bool)
    requires Own(e)
    ensures Own(e.(conn := Fail(e.conn, fault, reset).conn))
    ensures Continues(e, e.(conn := Fail(e.conn, fault, reset).conn))
    ensures AllTruthful(e.(conn := Fail(e.conn, fault, reset).conn), Fail(e.conn, fault, reset).sent)
    ensures Quiet(e, e.(conn := Fail(e.conn, fault, reset).conn)) && Fail(e.conn, fault, reset).conn.phase == Closed
  {
    hide Wrap32, Sending;
  }

  predicate Probing(c: Conn) {
    c.peerWindow == 0 && (c.tx != [] || (c.writeClosed && !c.finSent))
  }

  function Probed(e: End): End {
    var c := Probe(e.conn).conn;
    e.(conn := c, nxt := e.nxt + (c.inflight - e.conn.inflight))
  }

  /** The fabricated byte of a probe lies below una: Truthful never lets it pass for stream data. */
  lemma ProbeOwn(e: End)
    requires Own(e)
    requires e.conn.phase != Closed && e.conn.phase != TimeWait && !Handshaking(e.conn.phase)
    requires Probing(e.conn)
    ensures Own(Probed(e)) && Continues(e, Probed(e)) && Quiet(e, Probed(e))
    ensures AllTruthful(Probed(e), Probe(e.conn).sent)
  {
    hide Wrap32, Unacked;
    AddToWrap(e.conn.iss + e.nxt, 1);
    AddToWrap(e.conn.iss + e.nxt, -1);
    Extend(e.conn.sndUna, e.conn.sndNxt, 1);
    if e.conn.tx != [] {
      UnackedSlice(e, 1);
      SameUnacked(e, Probed(e));
    }
    SeqOfIs(Probed(e), Probe(e.conn).sent[0], if e.conn.tx != [] then e.una else e.nxt - 1);
  }

  /** What the retransmission timer sends again. */
  function Again(c: Conn): seq<Segment> {
    if c.inflight != 0 then [Emit(c, ACK, c.sndUna, c.tx[..Min(c.inflight, |c.tx|)])]
    else if c.finSent then [Emit(c, FINACK, c.finSeq, [])]
    else []
  }

  lemma AgainTruthful(e: End, e': End)
    requires Own(e) && e.conn.phase != Closed && !Handshaking(e.conn.phase)
    requires Own(e') && Continues(e, e') && e'.nxt <= e.nxt + MSS
    requires e'.rcv == e.rcv && e'.conn.rcvNxt == e.conn.rcvNxt
    ensures AllTruthful(e', Again(e.conn))
  {
    hide Wrap32, Unacked;
    if Again(e.conn) != [] {
      if e.conn.inflight != 0 { UnackedSlice(e, e.conn.inflight); }
      SeqOfIs(e', Again(e.conn)[0], if e.conn.inflight != 0 then e.una else e.nxt - 1);
    }
  }

  lemma TickOwn(e: End, clock: Clock)
    requires Own(e)
    ensures Good(e, Tick(clock), After(e, Tick(clock))) && Quiet(e, After(e, Tick(clock)))
  {
    hide Wrap32, Pump, Probe, Fail, AllTruthful, Own, Continues, Quiet, After;
    var c := e.conn;
    if c.phase == Closed {
      StillOwn(e, Tick(clock));
    } else if clock.expired {
      FailTick(e, clock);
    } else if c.phase == TimeWait || clock.pendingDue || Handshaking(c.phase) {
      StillOwn(e, Tick(clock));
    } else if Probing(c) && !clock.probeDue {
      StillOwn(e, Tick(clock));
    } else if Probing(c) {
      ProbeTick(e, clock);
    } else {
      PumpTick(e, clock);
    }
  }

  lemma StillOwn(e: End, ev: Event)
    requires Own(e) && Step(e.conn, ev) == Outcome(e.conn, [])
    requires ev.Tick? || ev.CloseWrite? || ev.Close?
    ensures Good(e, ev, After(e, ev)) && Quiet(e, After(e, ev))
  {
    hide Wrap32, Step;
    QuietAfter(e, ev, e);
  }

  lemma FailTick(e: End, clock: Clock)
    requires Own(e) && clock.expired && e.conn.phase != Closed
    ensures Good(e, Tick(clock), After(e, Tick(clock))) && Quiet(e, After(e, Tick(clock)))
  {
    hide Wrap32;
    var timedOut := e.conn.phase != TimeWait;
    FailOwn(e, if timedOut then TimedOut else NoFault, timedOut);
    QuietAfter(e, Tick(clock), e.(conn := TickAt(e.conn, clock).conn));
  }

  lemma PumpTick(e: End, clock: Clock)
    requires Own(e) && e.conn.phase != Closed && e.conn.phase != TimeWait && !Handshaking(e.conn.phase)
    requires !clock.expired && !clock.pendingDue && !Probing(e.conn)
    ensures Good(e, Tick(clock), After(e, Tick(clock))) && Quiet(e, After(e, Tick(clock)))
  {
    hide Wrap32, Pump, Inv, Unacked;
    PumpOwn(e);
    AgainTruthful(e, Pumped(e));
    QuietAfter(e, Tick(clock), Pumped(e));
  }

  lemma ProbeTick(e: End, clock: Clock)
    requires Own(e) && e.conn.phase != Closed && e.conn.phase != TimeWait && !Handshaking(e.conn.phase)
    requires !clock.expired && !clock.pendingDue && clock.probeDue && Probing(e.conn)
    ensures Good(e, Tick(clock), After(e, Tick(clock))) && Quiet(e, After(e, Tick(clock)))
  {
    hide Wrap32, Inv, Unacked;
    ProbeOwn(e);
    QuietAfter(e, Tick(clock), Probed(e));
  }

  function Appended(e: End, some: seq<byte>): End {
    e.(conn := e.conn.(tx := e.conn.tx + some), written := e.written + some)
  }

  lemma AppendUnacked(e: End, some: seq<byte>)
    requires Unacked(e)
    ensures Unacked(Appended(e, some))
  {
    assert (e.written + some)[e.una - 1..] == e.written[e.una - 1..] + some;
  }

  lemma AppendOwn(e: End, some: seq<byte>)
    requires Own(e) && CanWrite(e.conn) && |e.conn.tx| + |some| <= SEND_BUFFER
    ensures Own(Appended(e, some)) && Continues(e, Appended(e, some))
  {
    hide Wrap32, Unacked;
    AppendUnacked(e, some);
  }

  lemma WriteOwn(e: End, bytes: seq<byte>)
    requires Own(e)
    ensures Good(e, Write(bytes), After(e, Write(bytes))) && Quiet(e, After(e, Write(bytes)))
  {
    hide Wrap32, Pump, Sending, Receiving;
    if !CanWrite(e.conn) || bytes == [] {
      QuietAfter(e, Write(bytes), e);
    } else {
      var e1 := Appended(e, bytes[..WriteCount(e.conn, bytes)]);
      AppendOwn(e, bytes[..WriteCount(e.conn, bytes)]);
      hide Inv;
      PumpOwn(e1);
      QuietAfter(e, Write(bytes), Pumped(e1));
    }
  }

  function Drained(e: End, n: nat): End
    requires n <= |e.conn.rx|
  {
    e.(conn := e.conn.(rx := e.conn.rx[n..]), read := e.read + e.conn.rx[..n])
  }

  lemma DrainOwn(e: End, n: nat)
    requires Own(e) && n <= |e.conn.rx|
    ensures Own(Drained(e, n)) && Continues(e, Drained(e, n))
  {
    hide Wrap32, Sending, Receiving;
    SameSending(e, Drained(e, n));
    DrainReceiving(e, n);
  }

  lemma DrainReceiving(e: End, n: nat)
    requires Receiving(e) && n <= |e.conn.rx|
    ensures Receiving(Drained(e, n))
  {
    assert e.conn.rx[..n] + e.conn.rx[n..] == e.conn.rx;
    assert e.read + e.conn.rx[..n] + e.conn.rx[n..] == e.read + e.conn.rx;
  }

  lemma ReadOwn(e: End, max: nat)
    requires Own(e)
    ensures Good(e, Read(max), After(e, Read(max))) && Quiet(e, After(e, Read(max)))
  {
    hide Wrap32, Inv, Sending;
    var got := ReadOf(e.conn, max);
    if got.Bytes? && got.bytes != [] {
      DrainOwn(e, |got.bytes|);
      var e1 := Drained(e, |got.bytes|);
      if ReadSome(e.conn, max).sent != [] {
        AckTruthful(e1, e1);
      }
      QuietAfter(e, Read(max), e1);
    } else {
      QuietAfter(e, Read(max), e);
    }
  }

  /** Marking an end closed for writing, or for the application altogether. */
  lemma MarkOwn(e: End, app: bool)
    requires Own(e)
    ensures Own(e.(conn := e.conn.(appClosed := e.conn.appClosed || app, writeClosed := true)))
  {
    hide Wrap32, Sending;
    SameSending(e, e.(conn := e.conn.(appClosed := e.conn.appClosed || app, writeClosed := true)));
  }

  lemma ShutWriteOwn(e: End)
    requires Own(e)
    ensures Good(e, CloseWrite, After(e, CloseWrite)) && Quiet(e, After(e, CloseWrite))
  {
    hide Wrap32, Pump, Inv, Sending, Receiving;
    if e.conn.appClosed || e.conn.phase == Closed || e.conn.writeClosed {
      StillOwn(e, CloseWrite);
    } else {
      var e1 := e.(conn := e.conn.(writeClosed := true));
      MarkOwn(e, false);
      PumpOwn(e1);
      QuietAfter(e, CloseWrite, Pumped(e1));
    }
  }

  lemma ShutOwn(e: End)
    requires Own(e)
    ensures Good(e, Close, After(e, Close)) && Quiet(e, After(e, Close))
  {
    hide Wrap32, Pump, Inv, Sending, Receiving, Fail;
    var e1 := e.(conn := e.conn.(appClosed := true, writeClosed := true));
    MarkOwn(e, true);
    if e.conn.appClosed {
      StillOwn(e, Close);
    } else if e.conn.rx != [] {
      FailOwn(e1, ClosedLocally, true);
      QuietAfter(e, Close, e1.(conn := Shut(e.conn).conn));
    } else if e.conn.phase == Closed || e.conn.phase == TimeWait {
      QuietAfter(e, Close, e1);
    } else {
      PumpOwn(e1);
      QuietAfter(e, Close, Pumped(e1));
    }
  }

  /** Every event other than an arrival keeps the end sound, says only true things and takes nothing back. */
  lemma LocalOwn(e: End, ev: Event)
    requires Own(e) && !ev.Arrive?
    ensures Good(e, ev, After(e, ev)) && Quiet(e, After(e, ev))
  {
    hide Own, After, Step;
    match ev
    case Tick(clock) => TickOwn(e, clock);
    case Write(bytes) => WriteOwn(e, bytes);
    case Read(max) => ReadOwn(e, max);
    case CloseWrite => ShutWriteOwn(e);
    case Close => ShutOwn(e);
  }
}
