/** The lightweight TCP connection as a function from state and event to state and segments sent. */
module TcpConn {
  import opened Words

  const MSS: int := 1200
  const SEND_BUFFER: int := 16 * 1024
  const RECEIVE_BUFFER: int := 16 * 1024

  datatype Phase =
    | Closed | SynSent | SynReceived | Established | FinWait1
    | FinWait2 | CloseWait | Closing | LastAck | TimeWait

  /** The control bits the connection looks at; PSH and URG never change its behaviour. */
  datatype Flags = Flags(syn: bool, ack: bool, rst: bool, fin: bool)

  const SYN := Flags(true, false, false, false)
  const ACK := Flags(false, true, false, false)
  const SYNACK := Flags(true, true, false, false)
  const FINACK := Flags(false, true, false, true)

  datatype Segment = Segment(seqNum: u32, ackNum: u32, flags: Flags, window: u16, mss: u16, data: seq<byte>)

  datatype Fault = NoFault | Refused | ResetByPeer | TimedOut | ClosedLocally | DataAfterClose

  datatype Conn = Conn(
    phase: Phase, fault: Fault,
    iss: u32, irs: u32, sndUna: u32, sndNxt: u32, rcvNxt: u32,
    wlSeq: u32, wlAck: u32, peerWindow: u16, peerMss: u16,
    tx: seq<byte>, rx: seq<byte>, inflight: nat,
    finSent: bool, recvFin: bool, finSeq: u32,
    appClosed: bool, writeClosed: bool)

  /** The connection after an event, and the segments it queued for output, in order. */
  datatype Outcome = Outcome(conn: Conn, sent: seq<Segment>)

  /** Which of the deadlines that tick compares with the clock have passed. */
  datatype Clock = Clock(expired: bool, pendingDue: bool, probeDue: bool, retransmitDue: bool)

  datatype Event =
    | Arrive(p: Segment)
    | Tick(clock: Clock)
    | Write(bytes: seq<byte>)
    | Read(max: nat)
    | CloseWrite
    | Close

  // ---- Segments -------------------------------------------------------------------------------

  function Window(c: Conn): u16 {
    if |c.rx| <= RECEIVE_BUFFER then RECEIVE_BUFFER - |c.rx| else 0
  }

  function Emit(c: Conn, flags: Flags, seqNum: u32, data: seq<byte>): Segment {
    Segment(seqNum, c.rcvNxt, flags, Window(c), if flags.syn then MSS else 0, data)
  }

  function AckOf(c: Conn): Segment {
    Emit(c, ACK, c.sndNxt, [])
  }

  /** The reset that answers p, or that aborts a connection when p acknowledges sndNxt. */
  function ResetFor(p: Segment): Segment {
    if p.flags.ack then Segment(p.ackNum, 0, Flags(false, false, true, false), 0, 0, [])
    else Segment(0, Wrap32(p.seqNum + SegLen(p)), Flags(false, true, true, false), 0, 0, [])
  }

  function SegLen(p: Segment): nat {
    |p.data| + (if p.flags.syn then 1 else 0) + (if p.flags.fin then 1 else 0)
  }

  // ---- The events -----------------------------------------------------------------------------

  /** newConn followed by the SYN of Dial. */
  function Dialled(iss: u32): Outcome {
    var c := Conn(SynSent, NoFault, iss, 0, iss, Wrap32(iss + 1), 0, 0, 0, 0, 536, [], [], 0,
                  false, false, 0, false, false);
    Outcome(c, [Emit(c, SYN, iss, [])])
  }

  /** newConn followed by the SYN-ACK that a listener's stack answers a SYN with. */
  function Accepted(iss: u32, p: Segment): Outcome {
    var c := Conn(SynReceived, NoFault, iss, p.seqNum, iss, Wrap32(iss + 1), Wrap32(p.seqNum + 1),
                  p.seqNum, p.ackNum, p.window, if p.mss != 0 then p.mss else 536, [], [], 0,
                  false, false, 0, false, false);
    Outcome(c, [Emit(c, SYNACK, iss, [])])
  }

  function Fail(c: Conn, fault: Fault, reset: bool): Outcome {
    if c.phase == Closed then Outcome(c, []) else
    Outcome(c.(phase := Closed, fault := fault, tx := []),
            if reset && c.phase != SynSent && c.phase != TimeWait
            then [Segment(c.sndNxt, 0, Flags(false, false, true, false), 0, 0, [])] else [])
  }

  function EnterTimeWait(c: Conn): Conn {
    c.(phase := TimeWait, tx := [])
  }

  function PumpSize(c: Conn): nat {
    Min(Min(|c.tx|, c.peerMss), Min(MSS, c.peerWindow))
  }

  function Pump(c: Conn): Outcome {
    if (c.phase != Established && c.phase != CloseWait) || c.inflight != 0 || c.peerWindow == 0 then
      Outcome(c, [])
    else if c.tx != [] then
      var n := PumpSize(c);
      var c' := c.(inflight := n, sndNxt := Wrap32(c.sndNxt + n));
      Outcome(c', [Emit(c', ACK, c.sndNxt, c.tx[..n])])
    else if c.writeClosed && !c.finSent then
      var c' := c.(finSent := true, finSeq := c.sndNxt, sndNxt := Wrap32(c.sndNxt + 1),
                   phase := if c.phase == CloseWait then LastAck else FinWait1);
      Outcome(c', [Emit(c', FINACK, c.sndNxt, [])])
    else
      Outcome(c, [])
  }

  function InputSynSent(c: Conn, p: Segment): Outcome {
    if p.flags.ack && p.ackNum != c.sndNxt then
      Outcome(c, if p.flags.rst then [] else [ResetFor(p)])
    else if p.flags.rst then
      if p.flags.ack then Fail(c, Refused, false) else Outcome(c, [])
    else if !(p.flags.syn && p.flags.ack && !p.flags.fin) then
      Outcome(c, [])
    else
      var c' := c.(sndUna := p.ackNum, irs := p.seqNum, rcvNxt := Wrap32(p.seqNum + 1),
                   peerMss := if p.mss != 0 then p.mss else c.peerMss,
                   peerWindow := p.window, wlSeq := p.seqNum, wlAck := p.ackNum,
                   phase := Established);
      Outcome(c', [AckOf(c')])
  }

  function InputTimeWait(c: Conn, p: Segment): Outcome {
    if p.flags.rst then Outcome(c, [])
    else if p.flags.fin && Wrap32(p.seqNum + |p.data| + 1) == c.rcvNxt then Outcome(c, [AckOf(c)])
    else if !p.flags.ack || p.data != [] then Outcome(c, [AckOf(c)])
    else Outcome(c, [])
  }

  predicate Acceptable(c: Conn, p: Segment) {
    var offset := Diff32(p.seqNum, c.rcvNxt);
    || (SegLen(p) == 0 && offset == 0)
    || (Window(c) > 0 && offset < Window(c) &&
        ((SegLen(p) == 0 && offset >= 0) || (SegLen(p) > 0 && offset + SegLen(p) > 0)))
  }

  function Input(c: Conn, p: Segment): Outcome {
    if c.phase == SynSent then InputSynSent(c, p)
    else if c.phase == SynReceived && p.flags.syn && !p.flags.ack && !p.flags.rst && p.seqNum == c.irs then
      Outcome(c, [Emit(c, SYNACK, c.iss, [])])
    else if c.phase == TimeWait then InputTimeWait(c, p)
    else if p.flags.syn && p.flags.ack && !p.flags.rst && p.seqNum == c.irs && p.ackNum == Wrap32(c.iss + 1) then
      Outcome(c, [AckOf(c)])
    else if p.flags.rst then
      if p.seqNum == c.rcvNxt then Fail(c, ResetByPeer, false)
      else Outcome(c, if Acceptable(c, p) then [AckOf(c)] else [])
    else if !Acceptable(c, p) || p.flags.syn then Outcome(c, [AckOf(c)])
    else if !p.flags.ack then Outcome(c, [])
    else if SeqLess(c.sndNxt, p.ackNum) then Outcome(c, [AckOf(c)])
    else if c.phase == SynReceived && (p.ackNum != c.sndNxt || p.seqNum != c.rcvNxt) then Outcome(c, [])
    else
      var c' := TakeAck(TakeWindow(Complete(c, p), p), p);
      if c'.phase == Closed then Outcome(c', []) else Deliver(c', p)
  }

  /** The third segment of the handshake opens the passive side. */
  function Complete(c: Conn, p: Segment): Conn {
    if c.phase == SynReceived then c.(phase := Established, sndUna := p.ackNum) else c
  }

  function TakeWindow(c: Conn, p: Segment): Conn {
    if !SeqLess(p.ackNum, c.sndUna) &&
       (SeqLess(c.wlSeq, p.seqNum) || (c.wlSeq == p.seqNum && !SeqLess(p.ackNum, c.wlAck)))
    then c.(peerWindow := p.window, wlSeq := p.seqNum, wlAck := p.ackNum)
    else c
  }

  function TakeAck(c: Conn, p: Segment): Conn {
    if !SeqLess(c.sndUna, p.ackNum) then c else
    var consumed := Min(Wrap32(p.ackNum - c.sndUna), Min(c.inflight, |c.tx|));
    var c' := c.(tx := c.tx[consumed..], inflight := c.inflight - consumed, sndUna := p.ackNum);
    if c.finSent && p.ackNum == Wrap32(c.finSeq + 1) then FinAcked(c') else c'
  }

  function FinAcked(c: Conn): Conn {
    match c.phase
    case FinWait1 => c.(phase := FinWait2)
    case Closing => EnterTimeWait(c)
    case LastAck => Fail(c, NoFault, false).conn
    case _ => c
  }

  /** What is left of a payload once the bytes already received are cut off its front. */
  function Trimmed(c: Conn, p: Segment): seq<byte> {
    var offset := Diff32(p.seqNum, c.rcvNxt);
    if offset < 0 then p.data[Min(-offset, |p.data|)..] else p.data
  }

  /** The payload that continues the received stream, or nothing. */
  function InOrder(c: Conn, p: Segment): seq<byte> {
    var offset := Diff32(p.seqNum, c.rcvNxt);
    if !c.recvFin && (offset == 0 || (offset < 0 && -offset <= |p.data|)) then Trimmed(c, p) else []
  }

  /** How much of that payload the receive buffer has room for. */
  function FillCount(c: Conn, p: Segment): nat {
    Min(|InOrder(c, p)|, Window(c))
  }

  function Fill(c: Conn, p: Segment): Conn {
    var n := FillCount(c, p);
    c.(rx := c.rx + InOrder(c, p)[..n], rcvNxt := Wrap32(c.rcvNxt + n))
  }

  function TakeFin(c: Conn, p: Segment, window: u16, receiveRight: u32): Conn {
    var finSeq := Wrap32(p.seqNum + |p.data|);
    if !(p.flags.fin && !c.recvFin && finSeq == c.rcvNxt && window > 0 && SeqLess(finSeq, receiveRight)) then c else
    var c' := c.(recvFin := true, rcvNxt := Wrap32(c.rcvNxt + 1));
    match c.phase
    case Established => c'.(phase := CloseWait)
    case FinWait1 => c'.(phase := Closing)
    case FinWait2 => EnterTimeWait(c')
    case _ => c'
  }

  function Deliver(c: Conn, p: Segment): Outcome {
    if InOrder(c, p) != [] && c.appClosed then Fail(c, DataAfterClose, true) else
    var c' := TakeFin(Fill(c, p), p, Window(c), Wrap32(c.rcvNxt + Window(c)));
    var reply := if p.data != [] || p.flags.fin then [AckOf(c')] else [];
    var o := Pump(c');
    Outcome(o.conn, reply + o.sent)
  }

  function TickAt(c: Conn, clock: Clock): Outcome {
    if c.phase == Closed then Outcome(c, [])
    else if c.phase == TimeWait then if clock.expired then Fail(c, NoFault, false) else Outcome(c, [])
    else if clock.expired then Fail(c, TimedOut, true)
    else if clock.pendingDue || c.phase == SynSent || c.phase == SynReceived then Outcome(c, [])
    else if c.peerWindow == 0 && (c.tx != [] || (c.writeClosed && !c.finSent)) then
      if clock.probeDue then Probe(c) else Outcome(c, [])
    else
      var again := if c.sndUna == c.sndNxt || !clock.retransmitDue then []
                   else if c.inflight != 0 then [Emit(c, ACK, c.sndUna, c.tx[..Min(c.inflight, |c.tx|)])]
                   else if c.finSent then [Emit(c, FINACK, c.finSeq, [])]
                   else [];
      var o := Pump(c);
      Outcome(o.conn, again + o.sent)
  }

  /** A zero-window probe: one real byte, or a made-up zero byte when only a FIN is waiting. */
  function Probe(c: Conn): Outcome {
    if c.tx != [] then
      var c' := if c.inflight == 0 then c.(inflight := 1, sndNxt := Wrap32(c.sndNxt + 1)) else c;
      Outcome(c', [Emit(c', ACK, c.sndUna, c.tx[..1])])
    else
      Outcome(c, [Emit(c, ACK, Wrap32(c.sndNxt - 1), [0])])
  }

  predicate CanWrite(c: Conn) {
    !c.appClosed && !c.writeClosed && c.fault == NoFault && (c.phase == Established || c.phase == CloseWait)
  }

  /** How many of the offered bytes one pass of Write takes. */
  function WriteCount(c: Conn, bytes: seq<byte>): nat {
    if CanWrite(c) && |c.tx| <= SEND_BUFFER then Min(|bytes|, SEND_BUFFER - |c.tx|) else 0
  }

  function WriteSome(c: Conn, bytes: seq<byte>): Outcome {
    if !CanWrite(c) || bytes == [] then Outcome(c, []) else
    Pump(c.(tx := c.tx + bytes[..WriteCount(c, bytes)]))
  }

  datatype ReadResult = Bytes(bytes: seq<byte>) | Eof | Faulted | WouldBlock

  function ReadOf(c: Conn, max: nat): ReadResult {
    if c.appClosed then Faulted
    else if max == 0 then Bytes([])
    else if c.rx != [] then Bytes(c.rx[..Min(max, |c.rx|)])
    else if c.fault != NoFault then Faulted
    else if c.recvFin then Eof
    else if c.phase == Closed then Faulted
    else WouldBlock
  }

  function ReadSome(c: Conn, max: nat): Outcome {
    if !(ReadOf(c, max).Bytes? && ReadOf(c, max).bytes != []) then Outcome(c, []) else
    var c' := c.(rx := c.rx[Min(max, |c.rx|)..]);
    Outcome(c', if c.phase != Closed && c.phase != TimeWait then [AckOf(c')] else [])
  }

  function ShutWrite(c: Conn): Outcome {
    if c.appClosed || c.phase == Closed || c.writeClosed then Outcome(c, [])
    else Pump(c.(writeClosed := true))
  }

  function Shut(c: Conn): Outcome {
    if c.appClosed then Outcome(c, []) else
    var c' := c.(appClosed := true, writeClosed := true);
    if c.rx != [] then Fail(c', ClosedLocally, true)
    else if c.phase != Closed && c.phase != TimeWait then Pump(c')
    else Outcome(c', [])
  }

  /** One locked method of the connection; the stack hands no segment to a closed connection. */
  function Step(c: Conn, e: Event): Outcome {
    match e
    case Arrive(p) => if c.phase == Closed then Outcome(c, []) else Input(c, p)
    case Tick(clock) => TickAt(c, clock)
    case Write(bytes) => WriteSome(c, bytes)
    case Read(max) => ReadSome(c, max)
    case CloseWrite => ShutWrite(c)
    case Close => Shut(c)
  }
}
