/** A segment from the peer, numbered in the peer's stream, arrives at one end. */
module TcpArrival {
  import opened Words
  import opened TcpConn
  import opened TcpInvariant
  import opened TcpEndpoint
  import opened TcpLocal

  /** Once synchronised, rcvNxt stands for rcv in the numbering of the peer, whose SYN was peerIss. */
  predicate Synced(e: End, peerIss: u32) {
    e.rcv > 0 ==> e.conn.rcvNxt == Wrap32(peerIss + e.rcv)
  }

  /**
   * p is a reset, or is number s of the peer's stream and acknowledges number a of ours,
   * and is less than 2^31 numbers stale.
   */
  predicate Timely(e: End, peerIss: u32, p: Segment, s: int, a: int) {
    p.flags.rst || (
      && p.seqNum == Wrap32(peerIss + s) && 0 <= s
      && (e.rcv > 0 ==> e.rcv - s < HALF32 && s + SegLen(p) - e.rcv < HALF32)
      && (p.flags.syn ==> s == 0 && p.data == [])
      && (p.flags.ack ==> p.ackNum == Wrap32(e.conn.iss + a) && 1 <= a <= e.nxt && e.una - a < HALF32))
  }

  /** Only bytes that continue the received stream enter it. */
  predicate Took(e: End, p: Segment, s: int, e': End) {
    |e'.got| > |e.got| ==>
      var n := |e'.got| - |e.got|;
      && !p.flags.rst && e.rcv > 0 && !e.conn.recvFin
      && 0 <= e.rcv - s && e.rcv - s + n <= |p.data|
      && e'.got == e.got + p.data[e.rcv - s..e.rcv - s + n]
  }

  /** The peer's FIN is taken only when everything before it has been received. */
  predicate TookFin(e: End, p: Segment, s: int, e': End) {
    e'.conn.recvFin && !e.conn.recvFin ==> !p.flags.rst && p.flags.fin && s + |p.data| + 1 == e'.rcv
  }

  predicate Arrived(e: End, peerIss: u32, p: Segment, s: int, a: int, e': End) {
    && Synced(e', peerIss)
    && (e'.una != e.una ==> !p.flags.rst && p.flags.ack && e'.una == a)
    && (e.rcv == 0 && e'.rcv > 0 ==> !p.flags.rst && p.flags.syn && e'.rcv == 1)
    && Took(e, p, s, e')
    && TookFin(e, p, s, e')
  }

  // ---- The acceptance test --------------------------------------------------------------------

  /** The four cases of section 3.10.7.4 of RFC 9293: an end of the segment lies in the window. */
  predicate EndInWindow(s: int, length: nat, rcv: int, window: nat) {
    if length == 0 then
      if window == 0 then s == rcv else rcv <= s < rcv + window
    else window > 0 && (rcv <= s < rcv + window || rcv <= s + length - 1 < rcv + window)
  }

  predicate Within(n: int, first: int, length: nat) {
    first <= n < first + length
  }

  /**
   * On the numbers behind the words, the test takes what the RFC takes, and also a segment that covers the window on
   * both sides: for a segment with length, exactly those of which some number lies in the window.
   */
  lemma AcceptableIs(c: Conn, p: Segment, s: int, rcv: int)
    requires p.seqNum == Wrap32(s) && c.rcvNxt == Wrap32(rcv) && -HALF32 <= s - rcv < HALF32
    ensures Acceptable(c, p) <==>
            || EndInWindow(s, SegLen(p), rcv, Window(c))
            || (Window(c) > 0 && s < rcv && s + SegLen(p) > rcv + Window(c))
    ensures SegLen(p) > 0 ==>
              (Acceptable(c, p) <==> exists n :: Within(n, s, SegLen(p)) && Within(n, rcv, Window(c)))
  {
    hide Wrap32;
    DiffOfWraps(s, rcv);
    var n := if s < rcv then rcv else s;
    if SegLen(p) > 0 && Acceptable(c, p) { assert Within(n, s, SegLen(p)) && Within(n, rcv, Window(c)); }
  }

  // ---- The stages of input --------------------------------------------------------------------

  function Opened(e: End, p: Segment): End {
    e.(conn := TakeWindow(Complete(e.conn, p), p), una := if e.conn.phase == SynReceived then e.nxt else e.una)
  }

  lemma OpenOwn(e: End, p: Segment)
    requires Own(e) && Processed(e.conn, p)
    ensures Own(Opened(e, p)) && Continues(e, Opened(e, p))
    ensures !Handshaking(Opened(e, p).conn.phase)
  {
    hide Wrap32, Diff32, SeqLess, Inv, Sending, Receiving, Complete;
    var e1 := e.(conn := Complete(e.conn, p), una := Opened(e, p).una);
    CompleteOwn(e, p);
    WindowOwn(e1, p);
  }

  lemma CompleteOwn(e: End, p: Segment)
    requires Own(e) && Processed(e.conn, p)
    ensures var e1 := e.(conn := Complete(e.conn, p), una := Opened(e, p).una);
            Own(e1) && Continues(e, e1) && !Handshaking(e1.conn.phase)
  {
    hide Wrap32, Diff32, SeqLess, TakeWindow, Sending, Receiving, Inv;
    CompleteInv(e.conn, p);
    var e1 := e.(conn := Complete(e.conn, p), una := Opened(e, p).una);
    if e.conn.phase == SynReceived {
      AtHandshake(e);
      JustOpen(e1);
    }
    SameReceiving(e, e1);
  }

  lemma AtHandshake(e: End)
    requires Own(e) && Handshaking(e.conn.phase)
    ensures e.una == 0 && e.nxt == 1 && e.written == [] && e.conn.tx == [] && e.conn.inflight == 0
    ensures !e.conn.finSent && !e.conn.recvFin
  {
    hide Wrap32;
  }

  lemma JustOpen(e: End)
    requires e.conn.phase == Established && e.una == 1 && e.nxt == 1
    requires e.written == [] && e.conn.tx == [] && e.conn.inflight == 0 && !e.conn.finSent
    ensures Sending(e)
  {
  }

  lemma WindowOwn(e: End, p: Segment)
    requires Own(e)
    ensures var e1 := e.(conn := TakeWindow(e.conn, p));
            Own(e1) && Continues(e, e1) && e1.conn.phase == e.conn.phase
  {
    hide Wrap32, Diff32, SeqLess, Sending;
    SameSending(e, e.(conn := TakeWindow(e.conn, p)));
  }

  function Acked(e: End, p: Segment, a: int): End {
    e.(conn := TakeAck(e.conn, p), una := if e.una < a then a else e.una)
  }

  /** e is open and p acknowledges number a, which has been sent and is not too stale. */
  predicate Ackable(e: End, p: Segment, a: int) {
    && Own(e) && e.conn.phase != Closed && !Handshaking(e.conn.phase) && e.conn.phase != TimeWait
    && p.ackNum == Wrap32(e.conn.iss + a) && 1 <= a <= e.nxt && e.una - a < HALF32
    && !SeqLess(e.conn.sndNxt, p.ackNum)
  }

  lemma AckOwn(e: End, p: Segment, a: int)
    requires Ackable(e, p, a)
    ensures Own(Acked(e, p, a)) && Continues(e, Acked(e, p, a))
  {
    hide Wrap32, Diff32, Inv, Sending;
    FewOutstanding(e);
    DiffOfWraps(e.conn.iss + e.una, e.conn.iss + a);
    if e.una < a {
      if e.conn.finSent { AckFinOwn(e, p, a); } else { AckDataOwn(e, p, a); }
    }
  }

  lemma AckUnacked(e: End, e': End)
    requires Unacked(e) && e'.written == e.written && e.una <= e'.una <= e.una + |e.conn.tx|
    requires e'.conn.tx == e.conn.tx[e'.una - e.una..]
    ensures Unacked(e')
  {
    assert e.written[e.una - 1..][e'.una - e.una..] == e.written[e'.una - 1..];
  }

  lemma AckDataOwn(e: End, p: Segment, a: int)
    requires Ackable(e, p, a) && e.una < a && !e.conn.finSent && SeqLess(e.conn.sndUna, p.ackNum)
    ensures Own(Acked(e, p, a)) && Continues(e, Acked(e, p, a))
  {
    hide Wrap32, Diff32, SeqLess, Unacked;
    TakeAckInv(e.conn, p);
    Delta(e.conn.iss + a, e.conn.iss + e.una);
    AckUnacked(e, Acked(e, p, a));
  }

  lemma AckFinOwn(e: End, p: Segment, a: int)
    requires Ackable(e, p, a) && e.una < a && e.conn.finSent && SeqLess(e.conn.sndUna, p.ackNum)
    ensures Own(Acked(e, p, a)) && Continues(e, Acked(e, p, a))
  {
    hide Wrap32, Diff32, SeqLess, Inv;
    FinPending(e, a);
    TakeAckInv(e.conn, p);
    AddToWrap(e.conn.iss + 1 + |e.written|, 1);
  }

  /** An acknowledgement that advances past a sent FIN is that of the FIN. */
  lemma FinPending(e: End, a: int)
    requires Own(e) && e.conn.phase != Closed && e.conn.finSent && e.una < a <= e.nxt
    ensures a == e.nxt == 2 + |e.written| && e.conn.tx == [] && e.conn.inflight == 0
    ensures e.conn.phase == FinWait1 || e.conn.phase == Closing || e.conn.phase == LastAck
  {
    hide Wrap32;
  }

  function Filled(e: End, p: Segment): End {
    var n := FillCount(e.conn, p);
    e.(conn := Fill(e.conn, p), rcv := e.rcv + n, got := e.got + InOrder(e.conn, p)[..n])
  }

  lemma FillOwn(e: End, peerIss: u32, p: Segment, s: int)
    requires Own(e) && e.conn.phase != Closed && !Handshaking(e.conn.phase) && Synced(e, peerIss)
    requires p.seqNum == Wrap32(peerIss + s) && e.rcv - s < HALF32 && s + |p.data| - e.rcv < HALF32
    ensures Own(Filled(e, p)) && Continues(e, Filled(e, p)) && Synced(Filled(e, p), peerIss)
    ensures !p.flags.rst ==> Took(e, p, s, Filled(e, p))
    ensures Filled(e, p).conn.recvFin == e.conn.recvFin
    ensures Filled(e, p).rcv == e.rcv || Filled(e, p).rcv <= s + |p.data|
  {
    hide Wrap32, Diff32, Sending, Receiving, InOrder, Inv;
    SameSending(e, Filled(e, p));
    Synchronised(e);
    DiffOfWraps(peerIss + s, peerIss + e.rcv);
    var n := FillCount(e.conn, p);
    FillInv(e.conn, p);
    AddToWrap(peerIss + e.rcv, n);
    if InOrder(e.conn, p) != [] {
      InOrderSlice(e.conn, p);
      assert p.data[e.rcv - s..][..n] == p.data[e.rcv - s..e.rcv - s + n];
    }
    FillReceiving(e, p);
  }

  lemma InOrderSlice(c: Conn, p: Segment)
    requires InOrder(c, p) != []
    ensures var offset := Diff32(p.seqNum, c.rcvNxt);
            !c.recvFin && 0 <= -offset <= |p.data| && InOrder(c, p) == p.data[-offset..]
  {
    hide Diff32;
  }

  lemma FillReceiving(e: End, p: Segment)
    requires Receiving(e) && (InOrder(e.conn, p) != [] ==> !e.conn.recvFin) && e.rcv > 0
    ensures Receiving(Filled(e, p))
  {
    hide Wrap32, InOrder;
    var more := InOrder(e.conn, p)[..FillCount(e.conn, p)];
    assert e.read + e.conn.rx + more == e.read + (e.conn.rx + more);
  }

  function Finned(e: End, p: Segment, window: u16, right: u32): End {
    var c := TakeFin(e.conn, p, window, right);
    e.(conn := c, rcv := e.rcv + (if c.recvFin && !e.conn.recvFin then 1 else 0))
  }

  lemma FinOwn(e: End, peerIss: u32, p: Segment, s: int, window: u16, right: u32)
    requires Own(e) && e.conn.phase != Closed && !Handshaking(e.conn.phase) && Synced(e, peerIss)
    requires p.seqNum == Wrap32(peerIss + s) && e.rcv - s - |p.data| < HALF32 && s + |p.data| - e.rcv < HALF32
    requires !p.flags.rst
    ensures Own(Finned(e, p, window, right)) && Continues(e, Finned(e, p, window, right))
    ensures Synced(Finned(e, p, window, right), peerIss) && TookFin(e, p, s, Finned(e, p, window, right))
  {
    hide Wrap32, Diff32, Unacked;
    TakeFinInv(e.conn, p, window, right);
    if !e.conn.finSent { SameUnacked(e, Finned(e, p, window, right)); }
    AddToWrap(peerIss + s, |p.data|);
    DiffOfWraps(peerIss + s + |p.data|, peerIss + e.rcv);
    AddToWrap(peerIss + e.rcv, 1);
  }

  // ---- The whole of input ---------------------------------------------------------------------

  lemma ArrivalAfter(e: End, peerIss: u32, p: Segment, e': End)
    requires Own(e) && Own(e') && Continues(e, e') && Synced(e, peerIss) && Synced(e', peerIss)
    requires e.conn.phase != SynSent && e.rcv > 0
    requires e'.conn == Step(e.conn, Arrive(p)).conn
    requires e'.una - e.una < 0x1_0000_0000 && e'.nxt - e.nxt < 0x1_0000_0000 && e'.rcv - e.rcv < 0x1_0000_0000
    requires e'.written == e.written && e'.read == e.read
    ensures e' == After(e, Arrive(p))
  {
    hide Wrap32, Step, Inv, Sending;
    CountersAfter(e, Arrive(p), e');
    Delta(peerIss + e'.rcv, peerIss + e.rcv);
    assert e'.conn.rx == e'.got[|e.read|..] && e.conn.rx == e.got[|e.read|..];
    assert Gained(e.conn, e'.conn) == e'.got[|e.got|..];
  }

  /** Nothing of e changes but what it has sent. */
  lemma SameAfter(e: End, peerIss: u32, p: Segment, s: int, a: int)
    requires Own(e) && Synced(e, peerIss) && Step(e.conn, Arrive(p)).conn == e.conn
    requires AllTruthful(e, Step(e.conn, Arrive(p)).sent)
    ensures Good(e, Arrive(p), After(e, Arrive(p))) && Arrived(e, peerIss, p, s, a, After(e, Arrive(p)))
    ensures After(e, Arrive(p)) == e
  {
    hide Wrap32, Step, Inv, Sending;
    WrapUnique(0, 0, 0);
    var e' := After(e, Arrive(p));
    assert e'.got == e.got && e'.read == e.read && e'.written == e.written;
    assert e'.una == e.una && e'.nxt == e.nxt && e'.rcv == e.rcv;
    assert e' == e;
  }

  /** The guards before the acknowledgement is looked at let the segment through. */
  predicate Proceeds(c: Conn, p: Segment) {
    && Processed(c, p) && p.flags.ack && !p.flags.syn && !p.flags.rst && Acceptable(c, p)
    && (c.phase == SynReceived ==> p.seqNum == c.rcvNxt)
  }

  lemma ProceedsInput(c: Conn, p: Segment)
    requires Proceeds(c, p)
    ensures var c' := TakeAck(TakeWindow(Complete(c, p), p), p);
            Input(c, p) == if c'.phase == Closed then Outcome(c', []) else Deliver(c', p)
  {
    hide TakeAck, TakeWindow, Complete, Deliver, Acceptable, SeqLess, Wrap32;
  }

  lemma DeliverOwn(e: End, peerIss: u32, p: Segment, s: int) returns (e': End)
    requires Own(e) && Synced(e, peerIss) && e.conn.phase != Closed && !Handshaking(e.conn.phase)
    requires !p.flags.rst && p.seqNum == Wrap32(peerIss + s)
    requires e.rcv - s < HALF32 && s + SegLen(p) - e.rcv < HALF32
    ensures e'.conn == Deliver(e.conn, p).conn && Own(e') && Continues(e, e') && Synced(e', peerIss)
    ensures Took(e, p, s, e') && TookFin(e, p, s, e')
    ensures e'.una == e.una && e'.nxt <= e.nxt + MSS && e'.rcv <= e.rcv + RECEIVE_BUFFER + 1
    ensures e'.written == e.written && e'.read == e.read
    ensures AllTruthful(e', Deliver(e.conn, p).sent)
  {
    hide Wrap32, Diff32, SeqLess, InOrder, Fill, TakeFin, Pump, Inv, Fail, Sending;
    var c := e.conn;
    if InOrder(c, p) != [] && c.appClosed {
      FailOwn(e, DataAfterClose, true);
      e' := e.(conn := Fail(c, DataAfterClose, true).conn);
    } else {
      FillOwn(e, peerIss, p, s);
      var e1 := Filled(e, p);
      FillInv(c, p);
      FinOwn(e1, peerIss, p, s, Window(c), Wrap32(c.rcvNxt + Window(c)));
      var e2 := Finned(e1, p, Window(c), Wrap32(c.rcvNxt + Window(c)));
      PumpOwn(e2);
      e' := Pumped(e2);
      AckTruthful(e2, e');
    }
  }

  lemma ProcessOwn(e: End, peerIss: u32, p: Segment, s: int, a: int)
    requires Own(e) && Synced(e, peerIss) && Timely(e, peerIss, p, s, a) && Proceeds(e.conn, p)
    ensures Good(e, Arrive(p), After(e, Arrive(p))) && Arrived(e, peerIss, p, s, a, After(e, Arrive(p)))
  {
    hide Wrap32, Diff32, SeqLess, Acceptable, Input, Deliver, TakeAck, TakeWindow, Complete, Inv, Sending;
    ProceedsInput(e.conn, p);
    FewOutstanding(e);
    OpenOwn(e, p);
    var e1 := Opened(e, p);
    OpenKeeps(e, p, a);
    AckOwn(e1, p, a);
    var e2 := Acked(e1, p, a);
    TakeAckKeeps(e1.conn, p);
    if e2.conn.phase == Closed {
      ArrivalAfter(e, peerIss, p, e2);
    } else {
      var e3 := DeliverOwn(e2, peerIss, p, s);
      ArrivalAfter(e, peerIss, p, e3);
    }
  }

  lemma FewOutstanding(e: End)
    requires Own(e) && e.conn.phase != Closed
    ensures e.nxt - e.una <= MSS
  {
  }

  /** Opening leaves the receiving side and the sequence numbers sent as they were. */
  lemma OpenKeeps(e: End, p: Segment, a: int)
    requires Own(e) && Processed(e.conn, p) && p.ackNum == Wrap32(e.conn.iss + a) && 1 <= a <= e.nxt
    ensures var c := Opened(e, p).conn;
            && c.sndNxt == e.conn.sndNxt && c.rcvNxt == e.conn.rcvNxt && c.recvFin == e.conn.recvFin
            && c.phase != Closed && c.phase != TimeWait && c.iss == e.conn.iss
    ensures Opened(e, p).una != e.una ==> Opened(e, p).una == a
  {
    hide Wrap32, Diff32, SeqLess;
  }

  lemma TakeAckKeeps(c: Conn, p: Segment)
    ensures var c' := TakeAck(c, p); c'.rcvNxt == c.rcvNxt && c'.recvFin == c.recvFin
    ensures !Handshaking(c.phase) ==> !Handshaking(TakeAck(c, p).phase)
  {
    hide Wrap32, SeqLess, Min;
  }

  lemma SynSentOwn(e: End, peerIss: u32, p: Segment, s: int, a: int)
    requires Own(e) && e.conn.phase == SynSent && Timely(e, peerIss, p, s, a)
    ensures Good(e, Arrive(p), After(e, Arrive(p))) && Arrived(e, peerIss, p, s, a, After(e, Arrive(p)))
  {
    hide Wrap32;
    var o := InputSynSent(e.conn, p);
    WrapUnique(0, 0, 0);
    if o.conn == e.conn {
      SameAfter(e, peerIss, p, s, a);
    } else if o.conn.phase == Closed {
      FailOwn(e, Refused, false);
      var e' := e.(conn := o.conn);
      CountersAfter(e, Arrive(p), e');
      assert e' == After(e, Arrive(p));
    } else {
      OpenedActive(e, peerIss, p, a);
    }
  }

  /** The SYN-ACK of the peer opens the active side. */
  lemma OpenedActive(e: End, peerIss: u32, p: Segment, a: int)
    requires Own(e) && e.conn.phase == SynSent && Timely(e, peerIss, p, 0, a)
    requires p.flags == SYNACK && p.ackNum == e.conn.sndNxt
    ensures Good(e, Arrive(p), After(e, Arrive(p))) && Arrived(e, peerIss, p, 0, a, After(e, Arrive(p)))
  {
    hide Wrap32, Inv, Sending;
    SynSentInv(e.conn, p);
    AtHandshake(e);
    var e' := e.(conn := InputSynSent(e.conn, p).conn, una := 1, rcv := 1);
    AddToWrap(peerIss, 1);
    JustOpen(e');
    CountersAfter(e, Arrive(p), e');
    assert e' == After(e, Arrive(p));
    AckTruthful(e', e');
  }

  lemma ResetOwn(e: End, peerIss: u32, p: Segment, s: int, a: int)
    requires Own(e) && Synced(e, peerIss) && e.conn.phase != Closed && e.conn.phase != SynSent
             && e.conn.phase != TimeWait
    requires p.flags.rst && p.seqNum == e.conn.rcvNxt
    ensures Good(e, Arrive(p), After(e, Arrive(p))) && Arrived(e, peerIss, p, s, a, After(e, Arrive(p)))
  {
    hide Wrap32, Acceptable, Deliver, TakeAck;
    FailOwn(e, ResetByPeer, false);
    ArrivalAfter(e, peerIss, p, e.(conn := Fail(e.conn, ResetByPeer, false).conn));
  }

  /** Everything else is at most answered: the state stays, and the answer is an ACK or the SYN-ACK again. */
  lemma AnsweredOnly(c: Conn, p: Segment)
    requires c.phase != Closed && c.phase != SynSent && !Proceeds(c, p)
    requires !(p.flags.rst && p.seqNum == c.rcvNxt && c.phase != TimeWait)
    ensures var o := Input(c, p);
            && o.conn == c
            && (o.sent == [] || o.sent == [AckOf(c)]
                || (c.phase == SynReceived && o.sent == [Emit(c, SYNACK, c.iss, [])]))
  {
    hide TakeAck, TakeWindow, Complete, Deliver, Acceptable, SeqLess, Wrap32;
  }

  lemma AnswerOwn(e: End, peerIss: u32, p: Segment, s: int, a: int)
    requires Own(e) && Synced(e, peerIss) && e.conn.phase != Closed && e.conn.phase != SynSent
    requires !Proceeds(e.conn, p) && !(p.flags.rst && p.seqNum == e.conn.rcvNxt && e.conn.phase != TimeWait)
    ensures Good(e, Arrive(p), After(e, Arrive(p))) && Arrived(e, peerIss, p, s, a, After(e, Arrive(p)))
  {
    hide Input, Proceeds, Wrap32;
    AnsweredOnly(e.conn, p);
    AckTruthful(e, e);
    if e.conn.phase == SynReceived {
      SeqOfIs(e, Emit(e.conn, SYNACK, e.conn.iss, []), 0);
    }
    SameAfter(e, peerIss, p, s, a);
  }

  /** A timely segment keeps the end sound, and only what continues the peer's stream is taken. */
  lemma ArriveOwn(e: End, peerIss: u32, p: Segment, s: int, a: int)
    requires Own(e) && Synced(e, peerIss) && Timely(e, peerIss, p, s, a) && e.conn.phase != Closed
    ensures Good(e, Arrive(p), After(e, Arrive(p))) && Arrived(e, peerIss, p, s, a, After(e, Arrive(p)))
  {
    hide Own, After, Step, Proceeds, Arrived, Good;
    if e.conn.phase == SynSent {
      SynSentOwn(e, peerIss, p, s, a);
    } else if Proceeds(e.conn, p) {
      ProcessOwn(e, peerIss, p, s, a);
    } else if p.flags.rst && p.seqNum == e.conn.rcvNxt && e.conn.phase != TimeWait {
      ResetOwn(e, peerIss, p, s, a);
    } else {
      AnswerOwn(e, peerIss, p, s, a);
    }
  }
}
