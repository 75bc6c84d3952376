/** The connection object: the same events as updates in place of fields and circular buffers. */
module TcpConnection {
  import opened Words
  import T = TcpConn
  import opened TcpInvariant
  import opened TcpLocal
  import opened TcpBuffer

  class Connection {
    const iss: u32
    var phase: T.Phase
    var fault: T.Fault
    var irs: u32
    var sndUna: u32
    var sndNxt: u32
    var rcvNxt: u32
    var wlSeq: u32
    var wlAck: u32
    var peerWindow: u16
    var peerMss: u16
    var txBuf: ByteBuffer
    const rxBuf: ByteBuffer
    /** The contents of the two buffers. */
    ghost var tx: seq<byte>
    ghost var rx: seq<byte>
    var inflight: nat
    var finSent: bool
    var recvFin: bool
    var finSeq: u32
    var appClosed: bool
    var writeClosed: bool
    /** The segments handed to the stack's output queue, oldest first. */
    var outbox: seq<T.Segment>

    ghost function View(): T.Conn
      reads this
    {
      T.Conn(phase, fault, iss, irs, sndUna, sndNxt, rcvNxt, wlSeq, wlAck, peerWindow, peerMss,
             tx, rx, inflight, finSent, recvFin, finSeq, appClosed, writeClosed)
    }

    /** The two circular buffers hold the streams. */
    ghost predicate Buffered()
      reads this`txBuf, this`tx, this`rx, txBuf, txBuf.data, rxBuf, rxBuf.data
    {
      && txBuf != rxBuf && txBuf.data != rxBuf.data && txBuf.Valid() && rxBuf.Valid()
      && txBuf.Contents() == tx && rxBuf.Contents() == rx && rxBuf.data.Length == T.RECEIVE_BUFFER
    }

    /** Only a connection that is over has given its send buffer up. */
    ghost predicate Equipped()
      reads this`phase, this`txBuf
    {
      phase == T.Closed || phase == T.TimeWait || txBuf.data.Length == T.SEND_BUFFER
    }

    /** The room left in the receive buffer. */
    function Room(): (room: u16)
      requires Buffered()
      reads this`txBuf, this`tx, this`rx, txBuf, txBuf.data, rxBuf, rxBuf.data
      ensures room == T.RECEIVE_BUFFER - |rx|
    {
      rxBuf.data.Length - rxBuf.size
    }

    function TxSize(): (n: nat)
      requires Buffered()
      reads this`txBuf, this`tx, this`rx, txBuf, txBuf.data, rxBuf, rxBuf.data
      ensures n == |tx|
    {
      txBuf.size
    }

    function RxSize(): (n: nat)
      requires Buffered()
      reads this`txBuf, this`tx, this`rx, txBuf, txBuf.data, rxBuf, rxBuf.data
      ensures n == |rx|
    {
      rxBuf.size
    }

    /** The oldest unacknowledged bytes. */
    method TxPeek(n: nat) returns (data: seq<byte>)
      requires Buffered() && n <= |tx|
      ensures data == tx[..n]
    {
      data := txBuf.Peek(n);
    }

    /** newConn and the SYN of Dial. */
    constructor Dial(iss: u32)
      ensures Buffered() && Equipped() && View() == T.Dialled(iss).conn && outbox == T.Dialled(iss).sent
    {
      hide Wrap32;
      this.iss, irs, sndUna, sndNxt, rcvNxt := iss, 0, iss, Wrap32(iss + 1), 0;
      phase, fault := T.SynSent, T.NoFault;
      wlSeq, wlAck, peerWindow, peerMss := 0, 0, 0, 536;
      txBuf := new ByteBuffer(T.SEND_BUFFER);
      rxBuf := new ByteBuffer(T.RECEIVE_BUFFER);
      tx, rx := [], [];
      inflight, finSent, recvFin, finSeq, appClosed, writeClosed := 0, false, false, 0, false, false;
      outbox := [];
      new;
      Emit(T.SYN, iss, []);
    }

    /** newConn and the SYN-ACK with which the stack answers a SYN for a listener. */
    constructor Accept(iss: u32, p: T.Segment)
      ensures Buffered() && Equipped() && View() == T.Accepted(iss, p).conn && outbox == T.Accepted(iss, p).sent
    {
      hide Wrap32;
      this.iss, irs, sndUna, sndNxt := iss, p.seqNum, iss, Wrap32(iss + 1);
      rcvNxt := Wrap32(p.seqNum + 1);
      phase, fault := T.SynReceived, T.NoFault;
      wlSeq, wlAck, peerWindow := p.seqNum, p.ackNum, p.window;
      peerMss := if p.mss != 0 then p.mss else 536;
      txBuf := new ByteBuffer(T.SEND_BUFFER);
      rxBuf := new ByteBuffer(T.RECEIVE_BUFFER);
      tx, rx := [], [];
      inflight, finSent, recvFin, finSeq, appClosed, writeClosed := 0, false, false, 0, false, false;
      outbox := [];
      new;
      Emit(T.SYNACK, iss, []);
    }

    method Emit(flags: T.Flags, seqNum: u32, data: seq<byte>)
      requires Buffered()
      modifies this`outbox
      ensures outbox == old(outbox) + [T.Emit(View(), flags, seqNum, data)]
    {
      hide Buffered;
      outbox := outbox + [T.Segment(seqNum, rcvNxt, flags, Room(), if flags.syn then T.MSS else 0, data)];
    }

    method Ack()
      requires Buffered()
      modifies this`outbox
      ensures outbox == old(outbox) + [T.AckOf(View())]
    {
      hide Buffered;
      Emit(T.ACK, sndNxt, []);
    }

    method Fail(why: T.Fault, reset: bool)
      requires Buffered() && Equipped()
      modifies this`phase, this`fault, this`tx, this`txBuf, this`outbox
      ensures Buffered() && Equipped() && (txBuf == old(txBuf) || fresh({txBuf, txBuf.data}))
      ensures phase == T.Closed
      ensures (fault, tx) == if old(phase) == T.Closed then (old(fault), old(tx)) else (why, [])
      ensures outbox == old(outbox) + T.Fail(old(View()), why, reset).sent
    {
      if phase == T.Closed {
        return;
      }
      if reset && phase != T.SynSent && phase != T.TimeWait {
        outbox := outbox + [T.Segment(sndNxt, 0, T.Flags(false, false, true, false), 0, 0, [])];
      }
      phase := T.Closed;
      fault := why;
      txBuf := new ByteBuffer(0);
      tx := [];
    }

    /** fail, told of the whole connection. */
    method Abort(why: T.Fault, reset: bool)
      requires Buffered() && Equipped()
      modifies this`phase, this`fault, this`tx, this`txBuf, this`outbox
      ensures Buffered() && Equipped() && (txBuf == old(txBuf) || fresh({txBuf, txBuf.data}))
      ensures View() == T.Fail(old(View()), why, reset).conn
      ensures outbox == old(outbox) + T.Fail(old(View()), why, reset).sent
    {
      hide Buffered;
      Fail(why, reset);
    }

    method EnterTimeWait()
      requires Buffered() && Equipped()
      modifies this`phase, this`tx, this`txBuf
      ensures Buffered() && Equipped() && (txBuf == old(txBuf) || fresh({txBuf, txBuf.data}))
      ensures View() == T.EnterTimeWait(old(View()))
    {
      phase := T.TimeWait;
      txBuf := new ByteBuffer(0);
      tx := [];
    }

    method SendData()
      requires Buffered() && tx != []
      modifies this`inflight, this`sndNxt, this`outbox
      ensures inflight == T.PumpSize(old(View())) && sndNxt == Wrap32(old(sndNxt) + inflight)
      ensures outbox == old(outbox) + [T.Emit(View(), T.ACK, old(sndNxt), tx[..inflight])]
    {
      hide Wrap32, Buffered;
      inflight := Min(Min(TxSize(), peerMss), Min(T.MSS, peerWindow));
      var seqNum := sndNxt;
      sndNxt := Wrap32(sndNxt + inflight);
      var data := TxPeek(inflight);
      Emit(T.ACK, seqNum, data);
    }

    method SendFin()
      requires Buffered() && Equipped() && (phase == T.Established || phase == T.CloseWait)
      modifies this`finSent, this`finSeq, this`sndNxt, this`phase, this`outbox
      ensures Buffered() && Equipped()
      ensures finSent && finSeq == old(sndNxt) && sndNxt == Wrap32(old(sndNxt) + 1)
      ensures phase == if old(phase) == T.CloseWait then T.LastAck else T.FinWait1
      ensures outbox == old(outbox) + [T.Emit(View(), T.FINACK, finSeq, [])]
    {
      hide Wrap32, Buffered;
      finSent := true;
      finSeq := sndNxt;
      sndNxt := Wrap32(sndNxt + 1);
      phase := if phase == T.CloseWait then T.LastAck else T.FinWait1;
      Emit(T.FINACK, finSeq, []);
    }

    method Pump()
      requires Buffered() && Equipped()
      modifies this`inflight, this`sndNxt, this`finSent, this`finSeq, this`phase, this`outbox
      ensures Buffered() && Equipped()
      ensures View() == T.Pump(old(View())).conn
      ensures outbox == old(outbox) + T.Pump(old(View())).sent
    {
      hide Wrap32, Buffered;
      if (phase == T.Established || phase == T.CloseWait) && inflight == 0 && peerWindow != 0 {
        if TxSize() != 0 {
          SendData();
        } else if writeClosed && !finSent {
          SendFin();
        }
      }
    }

    /** The numbers, window and MSS of the peer's SYN-ACK. */
    method TakeOffer(p: T.Segment)
      modifies this`sndUna, this`irs, this`rcvNxt, this`peerMss, this`peerWindow, this`wlSeq, this`wlAck
      ensures sndUna == p.ackNum && irs == p.seqNum && rcvNxt == Wrap32(p.seqNum + 1)
      ensures peerMss == if p.mss != 0 then p.mss else old(peerMss)
      ensures peerWindow == p.window && wlSeq == p.seqNum && wlAck == p.ackNum
    {
      hide Wrap32;
      sndUna := p.ackNum;
      irs, rcvNxt := p.seqNum, Wrap32(p.seqNum + 1);
      peerMss := if p.mss != 0 then p.mss else peerMss;
      peerWindow, wlSeq, wlAck := p.window, p.seqNum, p.ackNum;
    }

    /** The peer's SYN-ACK opens the active side. */
    method Open(p: T.Segment)
      requires Buffered() && Equipped() && phase == T.SynSent
      modifies this`sndUna, this`irs, this`rcvNxt, this`peerMss, this`peerWindow, this`wlSeq, this`wlAck, this`phase,
               this`outbox
      ensures Buffered() && Equipped()
      ensures sndUna == p.ackNum && irs == p.seqNum && rcvNxt == Wrap32(p.seqNum + 1)
      ensures peerMss == if p.mss != 0 then p.mss else old(peerMss)
      ensures peerWindow == p.window && wlSeq == p.seqNum && wlAck == p.ackNum && phase == T.Established
      ensures outbox == old(outbox) + [T.AckOf(View())]
    {
      hide Wrap32, Buffered;
      TakeOffer(p);
      phase := T.Established;
      Ack();
    }

    method InputSynSent(p: T.Segment)
      requires Buffered() && Equipped() && phase == T.SynSent
      modifies this
      ensures Buffered() && Equipped() && (txBuf == old(txBuf) || fresh({txBuf, txBuf.data}))
      ensures View() == T.InputSynSent(old(View()), p).conn
      ensures outbox == old(outbox) + T.InputSynSent(old(View()), p).sent
    {
      hide Wrap32, T.Fail, Buffered;
      if p.flags.ack && p.ackNum != sndNxt {
        if !p.flags.rst {
          outbox := outbox + [T.ResetFor(p)];
        }
      } else if p.flags.rst {
        if p.flags.ack {
          Abort(T.Refused, false);
        }
      } else if p.flags.syn && p.flags.ack && !p.flags.fin {
        Open(p);
      }
    }

    method InputTimeWait(p: T.Segment)
      requires Buffered()
      modifies this`outbox
      ensures View() == T.InputTimeWait(old(View()), p).conn
      ensures outbox == old(outbox) + T.InputTimeWait(old(View()), p).sent
    {
      hide Wrap32, Buffered;
      if p.flags.rst {
        return;
      }
      if p.flags.fin && Wrap32(p.seqNum + |p.data| + 1) == rcvNxt {
        Ack();
      } else if !p.flags.ack || p.data != [] {
        Ack();
      }
    }

    method TakeWindow(p: T.Segment)
      modifies this`peerWindow, this`wlSeq, this`wlAck
      ensures View() == T.TakeWindow(old(View()), p)
    {
      hide Diff32;
      if !SeqLess(p.ackNum, sndUna) && (SeqLess(wlSeq, p.seqNum) || (wlSeq == p.seqNum && !SeqLess(p.ackNum, wlAck))) {
        peerWindow, wlSeq, wlAck := p.window, p.seqNum, p.ackNum;
      }
    }

    method FinAcked()
      requires Buffered() && Equipped()
      modifies this`phase, this`fault, this`tx, this`txBuf, this`outbox
      ensures Buffered() && Equipped() && (txBuf == old(txBuf) || fresh({txBuf, txBuf.data}))
      ensures View() == T.FinAcked(old(View())) && outbox == old(outbox)
    {
      hide Buffered, T.Fail, T.EnterTimeWait;
      if phase == T.FinWait1 {
        phase := T.FinWait2;
      } else if phase == T.Closing {
        EnterTimeWait();
      } else if phase == T.LastAck {
        QuietFail(View());
        Abort(T.NoFault, false);
      }
    }

    /** Discards what an acknowledgement of n numbers covers. */
    method Consume(n: nat)
      requires Buffered() && inflight <= |tx|
      modifies this`tx, this`inflight, txBuf
      ensures Buffered()
      ensures tx == old(tx)[Min(n, old(inflight))..] && inflight == old(inflight) - Min(n, old(inflight))
    {
      if inflight > 0 {
        var consumed := Min(n, inflight);
        txBuf.Discard(consumed);
        tx := tx[consumed..];
        inflight := inflight - consumed;
      }
    }

    method TakeAck(p: T.Segment)
      requires Buffered() && Equipped() && inflight <= |tx|
      modifies this, txBuf
      ensures Buffered() && Equipped() && (txBuf == old(txBuf) || fresh({txBuf, txBuf.data}))
      ensures View() == T.TakeAck(old(View()), p) && outbox == old(outbox)
    {
      hide SeqLess, Wrap32, T.FinAcked, Buffered;
      if SeqLess(sndUna, p.ackNum) {
        var n := Wrap32(p.ackNum - sndUna);
        Consume(n);
        sndUna := p.ackNum;
        if finSent && p.ackNum == Wrap32(finSeq + 1) {
          FinAcked();
        }
      }
    }

    /** Trims the payload to what is new and appends what fits to the receive buffer. */
    method Fill(p: T.Segment) returns (refused: bool)
      requires Buffered() && Equipped()
      modifies this`rcvNxt, this`rx, rxBuf, rxBuf.data
      ensures Buffered() && Equipped()
      ensures refused == (T.InOrder(old(View()), p) != [] && appClosed)
      ensures View() == if refused then old(View()) else T.Fill(old(View()), p)
    {
      hide Diff32, Wrap32;
      var offset := Diff32(p.seqNum, rcvNxt);
      var data := p.data;
      if offset < 0 {
        var trim := Min(-offset, |data|);
        data := data[trim..];
        offset := offset + trim;
      }
      refused := false;
      if offset == 0 && data != [] && !recvFin {
        if appClosed {
          refused := true;
          return;
        }
        var n := rxBuf.Write(data);
        rx := rx + data[..n];
        rcvNxt := Wrap32(rcvNxt + n);
      } else {
        NothingFills(View(), p);
      }
    }

    method TakeFin(p: T.Segment, window: u16, receiveRight: u32)
      requires Buffered() && Equipped()
      modifies this`recvFin, this`rcvNxt, this`phase, this`tx, this`txBuf
      ensures Buffered() && Equipped() && (txBuf == old(txBuf) || fresh({txBuf, txBuf.data}))
      ensures outbox == old(outbox)
      ensures View() == T.TakeFin(old(View()), p, window, receiveRight)
    {
      hide SeqLess, Wrap32, Buffered, T.EnterTimeWait;
      var seqOfFin := Wrap32(p.seqNum + |p.data|);
      if p.flags.fin && !recvFin && seqOfFin == rcvNxt && window > 0 && SeqLess(seqOfFin, receiveRight) {
        CountFin();
        if phase == T.FinWait2 {
          EnterTimeWait();
        }
      }
    }

    /** The FIN takes a number and closes the peer's direction. */
    method CountFin()
      modifies this`recvFin, this`rcvNxt, this`phase
      ensures recvFin && rcvNxt == Wrap32(old(rcvNxt) + 1)
      ensures phase == if old(phase) == T.Established then T.CloseWait
                       else if old(phase) == T.FinWait1 then T.Closing else old(phase)
    {
      recvFin := true;
      rcvNxt := Wrap32(rcvNxt + 1);
      match phase {
        case Established => phase := T.CloseWait;
        case FinWait1 => phase := T.Closing;
        case _ =>
      }
    }

    method Deliver(p: T.Segment)
      requires Buffered() && Equipped()
      modifies this, rxBuf, rxBuf.data
      ensures Buffered() && Equipped() && (txBuf == old(txBuf) || fresh({txBuf, txBuf.data}))
      ensures View() == T.Deliver(old(View()), p).conn
      ensures outbox == old(outbox) + T.Deliver(old(View()), p).sent
    {
      hide Diff32, Wrap32, T.InOrder, T.Fill, T.TakeFin, T.Pump, T.Fail, Buffered;
      var window := Room();
      var receiveRight := Wrap32(rcvNxt + window);
      var refused := Fill(p);
      if refused {
        Abort(T.DataAfterClose, true);
      } else {
        Answer(p, window, receiveRight);
      }
    }

    /** The FIN, the acknowledgement and the pump that follow the payload. */
    method Answer(p: T.Segment, window: u16, receiveRight: u32)
      requires Buffered() && Equipped()
      modifies this`recvFin, this`rcvNxt, this`phase, this`tx, this`txBuf, this`inflight, this`sndNxt, this`finSent,
               this`finSeq, this`outbox
      ensures Buffered() && Equipped() && (txBuf == old(txBuf) || fresh({txBuf, txBuf.data}))
      ensures var c := T.TakeFin(old(View()), p, window, receiveRight);
              && View() == T.Pump(c).conn
              && outbox == old(outbox) + (if p.data != [] || p.flags.fin then [T.AckOf(c)] else []) + T.Pump(c).sent
    {
      hide Diff32, Wrap32, T.TakeFin, T.Pump, Buffered;
      TakeFin(p, window, receiveRight);
      if p.data != [] || p.flags.fin {
        Ack();
      }
      Pump();
    }

    method Complete(p: T.Segment)
      requires Buffered() && Equipped()
      modifies this`phase, this`sndUna
      ensures Buffered() && Equipped()
      ensures View() == T.Complete(old(View()), p)
    {
      hide Buffered;
      if phase == T.SynReceived {
        phase := T.Established;
        sndUna := p.ackNum;
      }
    }

    /** The part of input that follows its guards. */
    method Process(p: T.Segment)
      requires Buffered() && Equipped() && Inv(View()) && Processed(View(), p)
      modifies this, txBuf, rxBuf, rxBuf.data
      ensures Buffered() && Equipped() && (txBuf == old(txBuf) || fresh({txBuf, txBuf.data}))
      ensures var c := T.TakeAck(T.TakeWindow(T.Complete(old(View()), p), p), p);
              && View() == (if c.phase == T.Closed then c else T.Deliver(c, p).conn)
              && outbox == old(outbox) + (if c.phase == T.Closed then [] else T.Deliver(c, p).sent)
    {
      hide SeqLess, Wrap32, T.TakeAck, T.TakeWindow, T.Complete, T.Deliver, Buffered;
      CompleteInv(View(), p);
      TakeWindowInv(T.Complete(View(), p), p);
      Complete(p);
      TakeWindow(p);
      InflightHeld(View());
      TakeAck(p);
      if phase != T.Closed {
        Deliver(p);
      }
    }

    /** Input once the handshake's own segments have been dealt with. */
    method InputSynchronised(p: T.Segment)
      requires Buffered() && Equipped() && Inv(View()) && phase != T.Closed && phase != T.SynSent && phase != T.TimeWait
      requires !(phase == T.SynReceived && p.flags.syn && !p.flags.ack && !p.flags.rst && p.seqNum == irs)
      requires !(p.flags.syn && p.flags.ack && !p.flags.rst && p.seqNum == irs && p.ackNum == Wrap32(iss + 1))
      modifies this, txBuf, rxBuf, rxBuf.data
      ensures Buffered() && Equipped() && (txBuf == old(txBuf) || fresh({txBuf, txBuf.data}))
      ensures View() == T.Input(old(View()), p).conn
      ensures outbox == old(outbox) + T.Input(old(View()), p).sent
    {
      hide SeqLess, Wrap32, T.TakeAck, T.TakeWindow, T.Complete, T.Deliver, T.Acceptable, Inv, T.Fail, Buffered;
      var acceptable := Acceptable(p);
      if p.flags.rst {
        if p.seqNum == rcvNxt {
          Abort(T.ResetByPeer, false);
        } else if acceptable {
          Ack();
        }
        return;
      }
      if !acceptable || p.flags.syn {
        Ack();
        return;
      }
      if !p.flags.ack {
        return;
      }
      if SeqLess(sndNxt, p.ackNum) {
        Ack();
        return;
      }
      if phase == T.SynReceived && (p.ackNum != sndNxt || p.seqNum != rcvNxt) {
        return;
      }
      Process(p);
    }

    method Acceptable(p: T.Segment) returns (yes: bool)
      requires Buffered()
      ensures yes == T.Acceptable(View(), p)
    {
      hide Diff32, Buffered;
      var window := Room();
      var offset := Diff32(p.seqNum, rcvNxt);
      var segLen := |p.data|;
      if p.flags.syn {
        segLen := segLen + 1;
      }
      if p.flags.fin {
        segLen := segLen + 1;
      }
      yes := (segLen == 0 && offset == 0) || (window > 0 && offset < window &&
        ((segLen == 0 && offset >= 0) || (segLen > 0 && offset + segLen > 0)));
    }

    /** A segment from the wire; the stack hands none to a closed connection. */
    method Input(p: T.Segment)
      requires Buffered() && Equipped() && Inv(View()) && phase != T.Closed
      modifies this, txBuf, rxBuf, rxBuf.data
      ensures Buffered() && Equipped() && (txBuf == old(txBuf) || fresh({txBuf, txBuf.data}))
      ensures Inv(View()) && View() == T.Step(old(View()), T.Arrive(p)).conn
      ensures outbox == old(outbox) + T.Step(old(View()), T.Arrive(p)).sent
    {
      hide SeqLess, Wrap32, T.TakeAck, T.TakeWindow, T.Complete, T.Deliver, T.InputSynSent, T.InputTimeWait,
           Live, T.Fail, T.Acceptable, Buffered;
      StepInv(View(), T.Arrive(p));
      if phase == T.SynSent {
        InputSynSent(p);
      } else if phase == T.SynReceived && p.flags.syn && !p.flags.ack && !p.flags.rst && p.seqNum == irs {
        Emit(T.SYNACK, iss, []);
      } else if phase == T.TimeWait {
        InputTimeWait(p);
      } else if p.flags.syn && p.flags.ack && !p.flags.rst && p.seqNum == irs && p.ackNum == Wrap32(iss + 1) {
        Ack();
      } else {
        InputSynchronised(p);
      }
    }

    /** A zero-window probe. */
    method Probe()
      requires Buffered()
      modifies this`inflight, this`sndNxt, this`outbox
      ensures View() == T.Probe(old(View())).conn
      ensures outbox == old(outbox) + T.Probe(old(View())).sent
    {
      hide Wrap32, Buffered;
      if TxSize() != 0 {
        if inflight == 0 {
          inflight := 1;
          sndNxt := Wrap32(sndNxt + 1);
        }
        var data := TxPeek(1);
        Emit(T.ACK, sndUna, data);
      } else {
        Emit(T.ACK, Wrap32(sndNxt - 1), [0]);
      }
    }

    method Retransmit()
      requires Buffered() && inflight <= |tx|
      modifies this`outbox
      ensures outbox == old(outbox) + Again(View())
    {
      hide Buffered;
      if inflight != 0 {
        var data := TxPeek(inflight);
        Emit(T.ACK, sndUna, data);
      } else if finSent {
        Emit(T.FINACK, finSeq, []);
      }
    }

    method Tick(clock: T.Clock)
      requires Buffered() && Equipped() && Inv(View())
      modifies this
      ensures Buffered() && Equipped() && (txBuf == old(txBuf) || fresh({txBuf, txBuf.data}))
      ensures Inv(View()) && View() == T.Step(old(View()), T.Tick(clock)).conn
      ensures outbox == old(outbox) + T.Step(old(View()), T.Tick(clock)).sent
    {
      hide Wrap32, T.Pump, T.Probe, Inv, T.Fail, Buffered;
      StepInv(View(), T.Tick(clock));
      if phase == T.Closed {
        return;
      }
      if phase == T.TimeWait {
        if clock.expired {
          Abort(T.NoFault, false);
        }
        return;
      }
      if clock.expired {
        Abort(T.TimedOut, true);
        return;
      }
      if clock.pendingDue || phase == T.SynSent || phase == T.SynReceived {
        return;
      }
      TickOpen(clock);
    }

    /** The probe, the retransmission and the pump of tick. */
    method TickOpen(clock: T.Clock)
      requires Buffered() && Equipped() && Inv(View())
      requires phase != T.Closed && phase != T.TimeWait && phase != T.SynSent && phase != T.SynReceived
      requires !clock.expired && !clock.pendingDue
      modifies this`inflight, this`sndNxt, this`finSent, this`finSeq, this`phase, this`outbox
      ensures Buffered() && Equipped()
      ensures View() == T.TickAt(old(View()), clock).conn
      ensures outbox == old(outbox) + T.TickAt(old(View()), clock).sent
    {
      hide Wrap32, T.Pump, T.Probe, Inv, T.Fail, Buffered;
      if peerWindow == 0 && (TxSize() != 0 || (writeClosed && !finSent)) {
        if clock.probeDue {
          Probe();
        }
        return;
      }
      InflightHeld(View());
      if sndUna != sndNxt && clock.retransmitDue {
        Retransmit();
      }
      Pump();
    }

    /** One pass of Write: takes what fits and pumps. */
    method Write(p: seq<byte>) returns (n: nat)
      requires Buffered() && Equipped() && Inv(View())
      modifies this, txBuf, txBuf.data
      ensures Buffered() && Equipped() && txBuf == old(txBuf)
      ensures n == T.WriteCount(old(View()), p)
      ensures Inv(View()) && View() == T.Step(old(View()), T.Write(p)).conn
      ensures outbox == old(outbox) + T.Step(old(View()), T.Write(p)).sent
    {
      hide Wrap32, T.Pump, Inv;
      StepInv(View(), T.Write(p));
      n := 0;
      if appClosed || writeClosed || fault != T.NoFault || (phase != T.Established && phase != T.CloseWait)
         || |p| == 0 {
        return;
      }
      n := txBuf.Write(p);
      tx := tx + p[..n];
      Pump();
    }

    method TakeBytes(max: nat) returns (data: seq<byte>)
      requires Buffered()
      modifies this`rx, rxBuf
      ensures Buffered() && data == old(rx)[..Min(max, |old(rx)|)] && rx == old(rx)[|data|..]
    {
      data := rxBuf.Read(max);
      rx := rx[|data|..];
    }

    /** One pass of Read. */
    method Read(max: nat) returns (r: T.ReadResult)
      requires Buffered() && Equipped() && Inv(View())
      modifies this, rxBuf
      ensures Buffered() && Equipped() && txBuf == old(txBuf)
      ensures r == T.ReadOf(old(View()), max)
      ensures Inv(View()) && View() == T.Step(old(View()), T.Read(max)).conn
      ensures outbox == old(outbox) + T.Step(old(View()), T.Read(max)).sent
    {
      hide Wrap32, Inv, Buffered;
      StepInv(View(), T.Read(max));
      if appClosed {
        return T.Faulted;
      }
      if max == 0 {
        return T.Bytes([]);
      }
      if RxSize() > 0 {
        var data := TakeBytes(max);
        r := T.Bytes(data);
        if phase != T.Closed && phase != T.TimeWait {
          Ack();
        }
        return;
      }
      r := if fault != T.NoFault then T.Faulted
           else if recvFin then T.Eof
           else if phase == T.Closed then T.Faulted
           else T.WouldBlock;
    }

    method CloseWrite()
      requires Buffered() && Equipped() && Inv(View())
      modifies this
      ensures Buffered() && Equipped() && txBuf == old(txBuf)
      ensures Inv(View()) && View() == T.Step(old(View()), T.CloseWrite).conn
      ensures outbox == old(outbox) + T.Step(old(View()), T.CloseWrite).sent
    {
      hide Wrap32, T.Pump, Inv, Buffered;
      StepInv(View(), T.CloseWrite);
      if !appClosed && phase != T.Closed && !writeClosed {
        writeClosed := true;
        Pump();
      }
    }

    method Close()
      requires Buffered() && Equipped() && Inv(View())
      modifies this
      ensures Buffered() && Equipped() && (txBuf == old(txBuf) || fresh({txBuf, txBuf.data}))
      ensures Inv(View()) && View() == T.Step(old(View()), T.Close).conn
      ensures outbox == old(outbox) + T.Step(old(View()), T.Close).sent
    {
      hide Wrap32, T.Pump, Inv, T.Fail, Buffered;
      StepInv(View(), T.Close);
      if appClosed {
        return;
      }
      appClosed, writeClosed := true, true;
      if RxSize() != 0 {
        Abort(T.ClosedLocally, true);
      } else if phase != T.Closed && phase != T.TimeWait {
        Pump();
      }
    }
  }

  lemma InflightHeld(c: T.Conn)
    requires Inv(c) && c.phase != T.Closed
    ensures c.inflight <= |c.tx|
  {
  }

  lemma QuietFail(c: T.Conn)
    ensures T.Fail(c, T.NoFault, false).sent == []
  {
  }

  /** A payload that does not continue the stream leaves the receiving side as it was. */
  lemma NothingFills(c: T.Conn, p: T.Segment)
    requires T.InOrder(c, p) == []
    ensures T.Fill(c, p) == c
  {
    WrapNear(c.rcvNxt);
  }
}
