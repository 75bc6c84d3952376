/** What every event keeps true of a single TCP connection, whatever segments arrive. */
module TcpInvariant {
  import opened Words
  import opened TcpConn

  predicate FinPhase(phase: Phase) {
    phase.FinWait1? || phase.FinWait2? || phase.Closing? || phase.LastAck? || phase.TimeWait?
  }

  predicate PeerFinPhase(phase: Phase) {
    phase.CloseWait? || phase.Closing? || phase.LastAck? || phase.TimeWait?
  }

  predicate Handshaking(phase: Phase) {
    phase.SynSent? || phase.SynReceived?
  }

  /** Sequence numbers sent and not yet acknowledged: the SYN, or data, or the FIN. */
  function Outstanding(c: Conn): nat {
    if Handshaking(c.phase) || c.phase.FinWait1? || c.phase.Closing? || c.phase.LastAck? then 1 else c.inflight
  }

  predicate Live(c: Conn) {
    && c.fault == NoFault
    && |c.tx| <= SEND_BUFFER
    && c.inflight <= |c.tx| && c.inflight <= MSS
    && (c.finSent ==> c.tx == [] && c.sndNxt == Wrap32(c.finSeq + 1))
    && (c.finSent <==> FinPhase(c.phase))
    && (c.recvFin <==> PeerFinPhase(c.phase))
    && (Handshaking(c.phase) ==> c.tx == [] && c.rx == [] && c.sndUna == c.iss && c.sndNxt == Wrap32(c.iss + 1))
    && Wrap32(c.sndNxt - c.sndUna) == Outstanding(c)
  }

  predicate Inv(c: Conn) {
    && |c.rx| <= RECEIVE_BUFFER
    && c.peerMss >= 1
    && (c.finSent || c.appClosed ==> c.writeClosed)
    && (c.phase != Closed ==> Live(c))
  }

  /** An acknowledgement that moves sndUna acknowledges something outstanding and nothing unsent. */
  lemma AdvancingAck(una: u32, nxt: u32, ack: u32)
    requires Wrap32(nxt - una) < HALF32
    requires !SeqLess(nxt, ack) && SeqLess(una, ack)
    ensures 1 <= Wrap32(ack - una) <= Wrap32(nxt - una)
    ensures Wrap32(nxt - ack) == Wrap32(nxt - una) - Wrap32(ack - una)
    ensures Wrap32(nxt - ack) == 0 ==> ack == nxt
  {
    hide Wrap32;
    WrapNear(nxt - una);
    WrapNear(ack - una);
    WrapNear(nxt - ack);
    WrapNear(una - ack);
  }

  /** Sending n more numbers lengthens the outstanding run by n. */
  lemma Extend(una: u32, nxt: u32, n: nat)
    requires Wrap32(nxt - una) + n < 0x1_0000_0000
    ensures Wrap32(Wrap32(nxt + n) - una) == Wrap32(nxt - una) + n
  {
    hide Wrap32;
    AddToWrap(nxt - una, n);
    SubtractWraps(nxt + n, una);
    WrapNear(Wrap32(nxt - una) + n);
    WrapNear(una);
  }

  lemma FailInv(c: Conn, fault: Fault, reset: bool)
    requires Inv(c)
    ensures Inv(Fail(c, fault, reset).conn)
  {
  }

  lemma PumpInv(c: Conn)
    requires Inv(c)
    ensures Inv(Pump(c).conn)
  {
    if c.phase == Established || c.phase == CloseWait {
      Extend(c.sndUna, c.sndNxt, PumpSize(c));
      Extend(c.sndUna, c.sndNxt, 1);
    }
  }

  lemma TakeAckInv(c: Conn, p: Segment)
    requires Inv(c) && c.phase != Closed && !Handshaking(c.phase) && c.phase != TimeWait
    requires !SeqLess(c.sndNxt, p.ackNum)
    ensures Inv(TakeAck(c, p))
  {
    hide Wrap32, Diff32, SeqLess;
    if SeqLess(c.sndUna, p.ackNum) {
      AdvancingAck(c.sndUna, c.sndNxt, p.ackNum);
    }
  }

  lemma CompleteInv(c: Conn, p: Segment)
    requires Inv(c) && c.phase != Closed && c.phase != SynSent
    requires c.phase == SynReceived ==> p.ackNum == c.sndNxt
    ensures Inv(Complete(c, p)) && !Handshaking(Complete(c, p).phase) && Complete(c, p).phase != Closed
  {
    hide Diff32, SeqLess;
  }

  lemma TakeWindowInv(c: Conn, p: Segment)
    requires Inv(c)
    ensures Inv(TakeWindow(c, p)) && TakeWindow(c, p).phase == c.phase
  {
    hide Wrap32, Diff32, SeqLess;
  }

  lemma FillInv(c: Conn, p: Segment)
    requires Inv(c) && !Handshaking(c.phase)
    ensures Inv(Fill(c, p)) && Fill(c, p).phase == c.phase
  {
    hide Wrap32, Diff32, InOrder;
  }

  lemma TakeFinInv(c: Conn, p: Segment, window: u16, right: u32)
    requires Inv(c) && c.phase != Closed && !Handshaking(c.phase)
    ensures Inv(TakeFin(c, p, window, right))
  {
    hide Wrap32, Diff32, SeqLess;
  }

  lemma DeliverInv(c: Conn, p: Segment)
    requires Inv(c) && c.phase != Closed && !Handshaking(c.phase)
    ensures Inv(Deliver(c, p).conn)
  {
    hide Wrap32, Diff32, SeqLess, InOrder, Fill, TakeFin, Pump, Inv, Fail;
    if InOrder(c, p) != [] && c.appClosed {
      FailInv(c, DataAfterClose, true);
    } else {
      FillInv(c, p);
      TakeFinInv(Fill(c, p), p, Window(c), Wrap32(c.rcvNxt + Window(c)));
      PumpInv(TakeFin(Fill(c, p), p, Window(c), Wrap32(c.rcvNxt + Window(c))));
    }
  }

  lemma SynSentInv(c: Conn, p: Segment)
    requires Inv(c) && c.phase == SynSent
    ensures Inv(InputSynSent(c, p).conn)
  {
  }

  /** The segment is acceptable, acknowledges nothing unsent, and completes any handshake. */
  predicate Processed(c: Conn, p: Segment) {
    && c.phase != Closed && c.phase != SynSent && c.phase != TimeWait
    && !SeqLess(c.sndNxt, p.ackNum)
    && (c.phase == SynReceived ==> p.ackNum == c.sndNxt)
  }

  lemma ProcessInv(c: Conn, p: Segment)
    requires Inv(c) && Processed(c, p)
    ensures Inv(TakeAck(TakeWindow(Complete(c, p), p), p))
    ensures !Handshaking(TakeAck(TakeWindow(Complete(c, p), p), p).phase)
  {
    hide Wrap32, Diff32, SeqLess;
    CompleteInv(c, p);
    TakeWindowInv(Complete(c, p), p);
    TakeAckInv(TakeWindow(Complete(c, p), p), p);
  }

  lemma InputInv(c: Conn, p: Segment)
    requires Inv(c) && c.phase != Closed
    ensures Inv(Input(c, p).conn)
  {
    hide Wrap32, Diff32, Deliver, TakeAck, TakeWindow, Complete, InputSynSent, Acceptable, SeqLess;
    if c.phase == SynSent {
      SynSentInv(c, p);
    } else if Processed(c, p) {
      ProcessInv(c, p);
      var c1 := TakeAck(TakeWindow(Complete(c, p), p), p);
      if c1.phase != Closed {
        DeliverInv(c1, p);
      }
    }
  }

  lemma TickInv(c: Conn, clock: Clock)
    requires Inv(c)
    ensures Inv(TickAt(c, clock).conn)
  {
    hide Wrap32, Pump;
    PumpInv(c);
    if c.phase != Closed && !Handshaking(c.phase) { Extend(c.sndUna, c.sndNxt, 1); }
  }

  lemma ShutInv(c: Conn)
    requires Inv(c)
    ensures Inv(Shut(c).conn)
  {
    hide Wrap32, Pump;
    PumpInv(c.(appClosed := true, writeClosed := true));
  }

  /** Every locked method, on every segment and every clock, keeps the connection invariant. */
  lemma StepInv(c: Conn, e: Event)
    requires Inv(c)
    ensures Inv(Step(c, e).conn)
  {
    hide Wrap32, Diff32, Pump, Input, TickAt, Shut;
    match e
    case Arrive(p) =>
      if c.phase != Closed { InputInv(c, p); }
    case Tick(clock) =>
      TickInv(c, clock);
    case Write(bytes) =>
      PumpInv(c.(tx := c.tx + bytes[..WriteCount(c, bytes)]));
    case Read(max) =>
    case CloseWrite =>
      PumpInv(c.(writeClosed := true));
    case Close =>
      ShutInv(c);
  }
}
