/**
 * One end of a TCP connection together with its history: the unbounded numbers its 32-bit fields stand for,
 * the bytes its application wrote and read, and the bytes its peer's segments gave it.
 */
module TcpEndpoint {
  import opened Words
  import opened TcpConn
  import opened TcpInvariant

  /** Numbers count from the SYN, which is 0; byte k of a stream is k + 1; the FIN follows the last byte. */
  datatype End = End(conn: Conn, una: nat, nxt: nat, rcv: nat, written: seq<byte>, got: seq<byte>, read: seq<byte>)

  function Gained(c: Conn, c': Conn): seq<byte> {
    if |c.rx| <= |c'.rx| then c'.rx[|c.rx|..] else []
  }

  /** The end after an event: each counter moves by the word its 32-bit field moved. */
  function After(e: End, ev: Event): End {
    var c, c' := e.conn, Step(e.conn, ev).conn;
    End(c',
        e.una + Wrap32(c'.sndUna - c.sndUna),
        e.nxt + Wrap32(c'.sndNxt - c.sndNxt),
        if c.phase == SynSent then (if c'.phase == Established then 1 else 0)
        else e.rcv + Wrap32(c'.rcvNxt - c.rcvNxt),
        e.written + (if ev.Write? then ev.bytes[..WriteCount(c, ev.bytes)] else []),
        e.got + (if ev.Arrive? then Gained(c, c') else []),
        e.read + (if ev.Read? && ReadOf(c, ev.max).Bytes? then ReadOf(c, ev.max).bytes else []))
  }

  /** A segment number that lies at or below sndNxt, read back as an unbounded number. */
  function SeqOf(e: End, p: Segment): int {
    e.nxt - Wrap32(e.conn.sndNxt - p.seqNum)
  }

  // ---- What holds of one end ------------------------------------------------------------------

  predicate Sending(e: End) {
    && e.nxt - e.una == Outstanding(e.conn)
    && (Handshaking(e.conn.phase) ==> e.una == 0 && e.written == [])
    && (!Handshaking(e.conn.phase) ==> e.una >= 1)
    && (e.conn.finSent ==> e.conn.finSeq == Wrap32(e.conn.iss + 1 + |e.written|))
    && (!Handshaking(e.conn.phase) && !e.conn.finSent ==> Unacked(e))
  }

  /** The send buffer holds what was written and is not acknowledged. */
  predicate Unacked(e: End) {
    1 <= e.una <= 1 + |e.written| && e.conn.tx == e.written[e.una - 1..]
  }

  predicate Receiving(e: End) {
    && e.got == e.read + e.conn.rx
    && (e.rcv == 0 ==> e.got == [] && !e.conn.recvFin)
    && (e.rcv > 0 ==> e.rcv == 1 + |e.got| + (if e.conn.recvFin then 1 else 0))
    && (e.conn.phase == SynSent ==> e.rcv == 0)
    && (e.conn.phase != SynSent && e.conn.phase != Closed ==> e.rcv > 0)
  }

  predicate Own(e: End) {
    && Inv(e.conn)
    && e.conn.sndUna == Wrap32(e.conn.iss + e.una)
    && e.conn.sndNxt == Wrap32(e.conn.iss + e.nxt)
    && 1 <= e.nxt && e.una <= e.nxt <= e.una + MSS
    && (if e.conn.finSent then e.nxt == 2 + |e.written| else e.nxt <= 1 + |e.written|)
    && Receiving(e)
    && (e.conn.phase != Closed ==> Sending(e))
  }

  /** The bytes are the ones the sending application wrote at that place in its stream. */
  predicate Genuine(written: seq<byte>, s: int, data: seq<byte>) {
    1 <= s && s - 1 + |data| <= |written| && data == written[s - 1..s - 1 + |data|]
  }

  /** What a segment sent by e says is true of e; made-up probe bytes lie below una. */
  predicate Truthful(e: End, p: Segment) {
    !p.flags.rst ==>
      var s := SeqOf(e, p);
      && p.seqNum == Wrap32(e.conn.iss + s)
      && 0 <= s && s + SegLen(p) <= e.nxt
      && (p.flags.syn ==> s == 0 && p.data == [] && !p.flags.fin)
      && (p.data != [] ==> Genuine(e.written, s, p.data) || s + |p.data| <= e.una)
      && (p.flags.fin ==> e.conn.finSent && p.data == [] && s == 1 + |e.written|)
      && (p.flags.ack ==> e.rcv >= 1 && p.ackNum == e.conn.rcvNxt)
  }

  predicate AllTruthful(e: End, sent: seq<Segment>) {
    forall i :: 0 <= i < |sent| ==> Truthful(e, sent[i])
  }

  /** e' continues e: nothing is taken back. */
  predicate Continues(e: End, e': End) {
    && e'.conn.iss == e.conn.iss
    && e.una <= e'.una && e.nxt <= e'.nxt && e.rcv <= e'.rcv
    && e.written <= e'.written && e.got <= e'.got && e.read <= e'.read
    && (e.conn.finSent ==> e'.conn.finSent && e'.written == e.written)
    && (e.conn.recvFin ==> e'.conn.recvFin && e'.got == e.got)
  }

  // ---- Arithmetic -----------------------------------------------------------------------------

  lemma Delta(x: int, y: int)
    requires 0 <= x - y < 0x1_0000_0000
    ensures Wrap32(Wrap32(x) - Wrap32(y)) == x - y
  {
    SubtractWraps(x, y);
  }

  /** A segment numbered s, at most 2^32 behind nxt, is read back as s. */
  lemma SeqOfIs(e: End, p: Segment, s: int)
    requires e.conn.sndNxt == Wrap32(e.conn.iss + e.nxt)
    requires p.seqNum == Wrap32(e.conn.iss + s) && 0 <= e.nxt - s < 0x1_0000_0000
    ensures SeqOf(e, p) == s
  {
    Delta(e.conn.iss + e.nxt, e.conn.iss + s);
  }

  // ---- Pumping --------------------------------------------------------------------------------

  function Pumped(e: End): End {
    var c := Pump(e.conn).conn;
    e.(conn := c, nxt := e.nxt + (if c.finSent && !e.conn.finSent then 1 else c.inflight - e.conn.inflight))
  }

  /** A bare acknowledgement numbered sndNxt stays truthful while pump sends more. */
  lemma AckTruthful(e: End, e': End)
    requires Own(e) && e.rcv >= 1
    requires e'.conn.iss == e.conn.iss && e'.conn.sndNxt == Wrap32(e'.conn.iss + e'.nxt)
    requires e.nxt <= e'.nxt < e.nxt + 0x1_0000_0000
    requires e'.rcv == e.rcv && e'.conn.rcvNxt == e.conn.rcvNxt
    ensures Truthful(e', AckOf(e.conn))
  {
    SeqOfIs(e', AckOf(e.conn), e.nxt);
  }

  lemma UnackedSlice(e: End, n: nat)
    requires Unacked(e) && n <= |e.conn.tx|
    ensures Genuine(e.written, e.una, e.conn.tx[..n])
    ensures e.una - 1 + |e.conn.tx| == |e.written|
  {
  }

  /** pump changes the sending side only. */
  predicate PumpGood(e: End, e': End, sent: seq<Segment>) {
    && Own(e') && Continues(e, e') && AllTruthful(e', sent)
    && e'.rcv == e.rcv && e'.conn.rcvNxt == e.conn.rcvNxt && e'.conn.recvFin == e.conn.recvFin
    && e'.una == e.una && e'.nxt <= e.nxt + MSS
    && e'.written == e.written && e'.got == e.got && e'.read == e.read
    && (e.conn.phase == SynSent ==> e' == e)
  }

  lemma PumpOwn(e: End)
    requires Own(e)
    ensures PumpGood(e, Pumped(e), Pump(e.conn).sent)
  {
    hide Wrap32, Inv, Unacked;
    if Pump(e.conn).sent != [] {
      if e.conn.tx != [] { PumpData(e); } else { PumpFin(e); }
    }
  }

  /** With nothing in flight, an open end has everything it sent acknowledged. */
  lemma Caught(e: End)
    requires Own(e) && (e.conn.phase == Established || e.conn.phase == CloseWait) && e.conn.inflight == 0
    ensures e.una == e.nxt && !e.conn.finSent && Unacked(e) && e.rcv >= 1 && |e.conn.tx| <= SEND_BUFFER
    ensures e.conn.peerMss >= 1
  {
    hide Wrap32, Unacked;
  }

  lemma PumpData(e: End)
    requires Own(e) && Pump(e.conn).sent != [] && e.conn.tx != []
    ensures PumpGood(e, Pumped(e), Pump(e.conn).sent)
  {
    hide Wrap32, Unacked, Genuine, Receiving, Inv;
    PumpInv(e.conn);
    Caught(e);
    SameReceiving(e, Pumped(e));
    var n := PumpSize(e.conn);
    UnackedSlice(e, n);
    SameUnacked(e, Pumped(e));
    AddToWrap(e.conn.iss + e.nxt, n);
    SeqOfIs(Pumped(e), Pump(e.conn).sent[0], e.nxt);
  }

  lemma PumpFin(e: End)
    requires Own(e) && Pump(e.conn).sent != [] && e.conn.tx == []
    ensures PumpGood(e, Pumped(e), Pump(e.conn).sent)
  {
    hide Wrap32, Unacked, Genuine, Receiving, Inv;
    PumpInv(e.conn);
    Caught(e);
    SameReceiving(e, Pumped(e));
    UnackedSlice(e, 0);
    AddToWrap(e.conn.iss + e.nxt, 1);
    SeqOfIs(Pumped(e), Pump(e.conn).sent[0], e.nxt);
  }

  lemma SameUnacked(e: End, e': End)
    requires e'.una == e.una && e'.written == e.written && e'.conn.tx == e.conn.tx
    ensures Unacked(e') == Unacked(e)
  {
  }

  lemma SameSending(e: End, e': End)
    requires e'.una == e.una && e'.nxt == e.nxt && e'.written == e.written
    requires e'.conn.phase == e.conn.phase && e'.conn.iss == e.conn.iss && e'.conn.tx == e.conn.tx
    requires e'.conn.inflight == e.conn.inflight
    requires e'.conn.finSent == e.conn.finSent && e'.conn.finSeq == e.conn.finSeq
    ensures Sending(e') == Sending(e)
  {
    hide Wrap32, Unacked;
    SameUnacked(e, e');
  }

  lemma Synchronised(e: End)
    requires Receiving(e) && e.conn.phase != SynSent && e.conn.phase != Closed
    ensures e.rcv >= 1
  {
  }

  lemma SameReceiving(e: End, e': End)
    requires e'.rcv == e.rcv && e'.got == e.got && e'.read == e.read
    requires e'.conn.rx == e.conn.rx && e'.conn.recvFin == e.conn.recvFin
    requires e.conn.phase != SynSent && e'.conn.phase != SynSent && (e.conn.phase == Closed ==> e'.conn.phase == Closed)
    ensures Receiving(e) ==> Receiving(e')
  {
  }
}
