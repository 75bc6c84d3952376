/** The KCP state machine as functions: fragmentation, the send and receive windows, and what each flush sends. */
module Kcp {
  import opened Words

  const MAX_WINDOW: int := 0xffff

  datatype Command = Push | Ack | Wask | Wins

  /** A fragment of a message; frg counts the fragments that follow it. */
  datatype Fragment = Fragment(frg: byte, data: seq<byte>)

  datatype Segment = Segment(cmd: Command, wnd: u16, ts: u32, sn: u32, una: u32, fragment: Fragment)

  /** A segment in snd_buf; an acknowledged one stays as a place holder without its data. */
  datatype Outgoing = Outgoing(sn: u32, fragment: Fragment, acked: bool)

  datatype AckItem = AckItem(sn: u32, ts: u32)

  /** rcvBuf is the content of the out-of-order heap, by sequence number. */
  datatype Kcp = Kcp(
    mss: nat, stream: bool, sndWnd: nat, rcvWnd: nat, rmtWnd: u16,
    sndUna: u32, sndNxt: u32, rcvNxt: u32,
    sndQueue: seq<Fragment>, sndBuf: seq<Outgoing>,
    rcvBuf: map<u32, Fragment>, rcvQueue: seq<Fragment>,
    acks: seq<AckItem>, tell: bool)

  function NewKcp(mss: nat, stream: bool, sndWnd: nat, rcvWnd: nat): Kcp {
    Kcp(mss, stream, sndWnd, rcvWnd, 32, 0, 0, 0, [], [], map[], [], [], false)
  }

  // ---- Send -----------------------------------------------------------------------------------

  /** The pieces Send cuts a buffer into: whole segments, then what is left. */
  function Fragments(bytes: seq<byte>, mss: nat, stream: bool): seq<Fragment>
    requires mss > 0 && (stream || |bytes| <= 255 * mss)
    decreases |bytes|
  {
    if |bytes| <= mss then [Fragment(0, bytes)]
    else
      FrgFits(bytes, mss);
      [Fragment(if stream then 0 else (|bytes| - 1) / mss, bytes[..mss])] + Fragments(bytes[mss..], mss, stream)
  }

  lemma FrgFits(bytes: seq<byte>, mss: nat)
    requires mss > 0 && |bytes| > mss
    ensures |bytes| <= 255 * mss ==> 0 <= (|bytes| - 1) / mss < 255
    ensures (|bytes| - 1) / mss >= 1
  {
    var q, r := (|bytes| - 1) / mss, (|bytes| - 1) % mss;
    assert |bytes| - 1 == q * mss + r;
    if q >= 255 {
      TimesAtLeast(q - 254, mss);
      assert q * mss == (q - 254) * mss + 254 * mss;
    }
    if q <= 0 {
      if q < 0 { TimesAtLeast(-q, mss); }
    }
  }

  /** How many bytes stream mode adds to the last queued segment. */
  function Extension(k: Kcp, bytes: seq<byte>): nat {
    if k.stream && k.sndQueue != [] && |k.sndQueue[|k.sndQueue| - 1].data| < k.mss
    then Min(k.mss - |k.sndQueue[|k.sndQueue| - 1].data|, |bytes|)
    else 0
  }

  function Extended(k: Kcp, bytes: seq<byte>): Kcp {
    var n := Extension(k, bytes);
    if n == 0 then k else
    var last := k.sndQueue[|k.sndQueue| - 1];
    k.(sndQueue := k.sndQueue[..|k.sndQueue| - 1] + [last.(data := last.data + bytes[..n])])
  }

  function SendCode(k: Kcp, bytes: seq<byte>): int {
    if bytes == [] then -1
    else if !k.stream && |bytes| > 255 * k.mss then -2
    else 0
  }

  function Send(k: Kcp, bytes: seq<byte>): Kcp
    requires k.mss > 0
  {
    if SendCode(k, bytes) != 0 then k else
    var k' := Extended(k, bytes);
    var rest := bytes[Extension(k, bytes)..];
    if rest == [] then k' else k'.(sndQueue := k'.sndQueue + Fragments(rest, k.mss, k.stream))
  }

  // ---- Recv -----------------------------------------------------------------------------------

  /** How many fragments the first message of a queue has, or the whole queue when it is not complete. */
  function FirstMessage(q: seq<Fragment>): (n: nat)
    ensures n <= |q|
    ensures q != [] ==> n > 0
  {
    if q == [] then 0 else if q[0].frg == 0 then 1 else 1 + FirstMessage(q[1..])
  }

  function Joined(q: seq<Fragment>): seq<byte> {
    if q == [] then [] else q[0].data + Joined(q[1..])
  }

  function PeekSize(k: Kcp): int {
    if k.rcvQueue == [] then -1
    else if k.rcvQueue[0].frg == 0 then |k.rcvQueue[0].data|
    else if |k.rcvQueue| < (k.rcvQueue[0].frg + 1) % 256 then -1
    else |Joined(k.rcvQueue[..FirstMessage(k.rcvQueue)])|
  }

  datatype Received = NoData | Short | Message(bytes: seq<byte>)

  function RecvResult(k: Kcp, room: nat): Received {
    if PeekSize(k) < 0 then NoData
    else if PeekSize(k) > room then Short
    else Message(Joined(k.rcvQueue[..FirstMessage(k.rcvQueue)]))
  }

  /** Moves what is now in order, and fits, from the out-of-order buffer to the receive queue. */
  function Refill(k: Kcp): Kcp
    decreases |k.rcvBuf|
  {
    if k.rcvNxt in k.rcvBuf && |k.rcvQueue| < k.rcvWnd then
      Refill(k.(rcvQueue := k.rcvQueue + [k.rcvBuf[k.rcvNxt]],
                rcvBuf := k.rcvBuf - {k.rcvNxt},
                rcvNxt := Wrap32(k.rcvNxt + 1)))
    else k
  }

  function Recv(k: Kcp, room: nat): Kcp {
    if !RecvResult(k, room).Message? then k else
    var k' := Refill(k.(rcvQueue := k.rcvQueue[FirstMessage(k.rcvQueue)..]));
    if |k'.rcvQueue| < k'.rcvWnd && |k.rcvQueue| >= k.rcvWnd then k'.(tell := true) else k'
  }

  // ---- Input ----------------------------------------------------------------------------------

  /** How many leading segments of snd_buf a cumulative acknowledgement covers. */
  function UnaCount(buf: seq<Outgoing>, una: u32): (n: nat)
    ensures n <= |buf|
  {
    if buf == [] || Diff32(una, buf[0].sn) <= 0 then 0 else 1 + UnaCount(buf[1..], una)
  }

  /** parse_una and shrink_buf. */
  function ParseUna(k: Kcp, una: u32): Kcp {
    var buf := k.sndBuf[UnaCount(k.sndBuf, una)..];
    k.(sndBuf := buf, sndUna := if buf != [] then buf[0].sn else k.sndNxt)
  }

  /** Marks the segment numbered sn, looking no further than the first one beyond it. */
  function MarkAcked(buf: seq<Outgoing>, sn: u32): (r: seq<Outgoing>)
    ensures |r| == |buf|
  {
    if buf == [] || (buf[0].sn != sn && Diff32(sn, buf[0].sn) < 0) then buf
    else if buf[0].sn == sn then [buf[0].(acked := true, fragment := buf[0].fragment.(data := []))] + buf[1..]
    else [buf[0]] + MarkAcked(buf[1..], sn)
  }

  function ParseAck(k: Kcp, sn: u32): Kcp {
    if Diff32(sn, k.sndUna) < 0 || Diff32(sn, k.sndNxt) >= 0 then k
    else k.(sndBuf := MarkAcked(k.sndBuf, sn))
  }

  function ParseData(k: Kcp, sn: u32, fragment: Fragment): Kcp {
    if Diff32(sn, Wrap32(k.rcvNxt + k.rcvWnd)) >= 0 || Diff32(sn, k.rcvNxt) < 0 then k
    else Refill(if sn in k.rcvBuf then k else k.(rcvBuf := k.rcvBuf[sn := fragment]))
  }

  /** A PUSH inside the window is acknowledged, new or not. */
  function PushedInto(k: Kcp, seg: Segment): Kcp {
    if Diff32(seg.sn, Wrap32(k.rcvNxt + k.rcvWnd)) >= 0 then k else
    var k' := k.(acks := k.acks + [AckItem(seg.sn, seg.ts)]);
    if Diff32(seg.sn, k'.rcvNxt) >= 0 then ParseData(k', seg.sn, seg.fragment) else k'
  }

  /** One segment of an arriving packet. */
  function Input(k: Kcp, seg: Segment, regular: bool): Kcp {
    var k1 := ParseUna(if regular then k.(rmtWnd := seg.wnd) else k, seg.una);
    match seg.cmd
    case Ack => ParseAck(k1, seg.sn)
    case Push => PushedInto(k1, seg)
    case Wask => k1.(tell := true)
    case Wins => k1
  }

  // ---- Flush ----------------------------------------------------------------------------------

  function WndUnused(k: Kcp): u16 {
    if |k.rcvQueue| < k.rcvWnd then (k.rcvWnd - |k.rcvQueue|) % 0x1_0000 else 0
  }

  /** The acknowledgements flush sends: those not covered by una, and always the last. */
  function AckSegments(k: Kcp, acks: seq<AckItem>): seq<Segment> {
    if acks == [] then [] else
    (if Diff32(acks[0].sn, k.rcvNxt) >= 0 || |acks| == 1
     then [Segment(Ack, WndUnused(k), acks[0].ts, acks[0].sn, k.rcvNxt, Fragment(0, []))] else [])
    + AckSegments(k, acks[1..])
  }

  /** Moves segments from the queue into the window while it is open. */
  function FillWindow(k: Kcp, cwnd: nat): Kcp
    decreases |k.sndQueue|
  {
    if Diff32(k.sndNxt, Wrap32(k.sndUna + cwnd)) >= 0 || k.sndQueue == [] then k
    else FillWindow(k.(sndQueue := k.sndQueue[1..],
                       sndBuf := k.sndBuf + [Outgoing(k.sndNxt, k.sndQueue[0], false)],
                       sndNxt := Wrap32(k.sndNxt + 1)), cwnd)
  }

  /** The data segments sent: those not acknowledged whose timers say so; due maps their numbers to timestamps. */
  function DataSegments(k: Kcp, buf: seq<Outgoing>, due: map<u32, u32>): seq<Segment> {
    if buf == [] then [] else
    (if !buf[0].acked && buf[0].sn in due
     then [Segment(Push, WndUnused(k), due[buf[0].sn], buf[0].sn, k.rcvNxt, buf[0].fragment)] else [])
    + DataSegments(k, buf[1..], due)
  }

  /** What the clock and the congestion window decide about one flush. */
  datatype Timing = Timing(ackOnly: bool, probe: bool, congestion: nat, due: map<u32, u32>)

  datatype Flushed = Flushed(k: Kcp, sent: seq<Segment>)

  function Flush(k: Kcp, timing: Timing): Flushed {
    var acks := AckSegments(k, k.acks);
    var k1 := k.(acks := []);
    if timing.ackOnly then Flushed(k1, acks) else
    var last := if k.acks == [] then AckItem(0, 0) else k.acks[|k.acks| - 1];
    var ask := if timing.probe then [Segment(Wask, WndUnused(k), last.ts, last.sn, k.rcvNxt, Fragment(0, []))] else [];
    var tell := if k.tell then [Segment(Wins, WndUnused(k), last.ts, last.sn, k.rcvNxt, Fragment(0, []))] else [];
    var k2 := FillWindow(k1.(tell := false), Min(timing.congestion, Min(k.sndWnd, k.rmtWnd)));
    Flushed(k2, acks + ask + tell + DataSegments(k2, k2.sndBuf, timing.due))
  }
}
