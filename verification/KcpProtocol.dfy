/** Two KCP ends and the segments between them: what every call at one end keeps true of both. */
module KcpProtocol {
  import opened Words
  import opened Kcp
  import opened KcpWindow
  import opened KcpEndpoint

  // ---- One end --------------------------------------------------------------------------------

  function AfterSend(e: End, bytes: seq<byte>): End
    requires e.k.mss > 0
  {
    e.(k := Send(e.k, bytes))
  }

  function AfterRecv(e: End, room: nat): End {
    if !RecvResult(e.k, room).Message? then e else
    var e' := Refilled(e.(k := e.k.(rcvQueue := e.k.rcvQueue[FirstMessage(e.k.rcvQueue)..])));
    e'.(k := e'.k.(tell := e'.k.tell || (|e'.k.rcvQueue| < e'.k.rcvWnd && |e.k.rcvQueue| >= e.k.rcvWnd)))
  }

  function AfterInput(e: End, t: Tagged, regular: bool): End {
    var e1 := TookUna(if regular then e.(k := e.k.(rmtWnd := t.seg.wnd)) else e, t.seg.una, t.u);
    match t.seg.cmd
    case Ack => TookAck(e1, t.seg.sn)
    case Push => TookPush(e1, t.seg, t.n)
    case Wask => e1.(k := e1.k.(tell := true))
    case Wins => e1
  }

  // ---- The invariant --------------------------------------------------------------------------

  /** The direction from s to r: r has only what s numbered, and holds whatever s believes acknowledged. */
  predicate Link(s: End, r: End) {
    && Matches(r, s.numbered)
    && s.una <= r.rcv
    && forall i :: 0 <= i < |s.k.sndBuf| && s.k.sndBuf[i].acked ==> Holds(r, s.una + i)
  }

  predicate Wire(s: End, net: set<Tagged>) {
    forall t :: t in net ==> Says(s, t)
  }

  predicate Good(x: End, y: End, netX: set<Tagged>, netY: set<Tagged>) {
    Own(x) && Own(y) && Link(x, y) && Link(y, x) && Wire(x, netX) && Wire(y, netY)
  }

  /** Numbers less than 2^31 behind the next one the end expects or uses. */
  predicate Fresh(e: End, t: Tagged) {
    && e.nxt - t.u < HALF32
    && (t.seg.cmd == Push ==> e.rcv - t.n < HALF32)
    && (t.seg.cmd == Ack ==> e.nxt - t.n < HALF32)
  }

  /** x' may hold, number and have acknowledged more than x. */
  ghost predicate Later(x: End, x': End) {
    HoldsMore(x, x') && x.numbered <= x'.numbered && x.una <= x'.una
  }

  lemma WireLater(x: End, x': End, net: set<Tagged>)
    requires Wire(x, net) && Later(x, x')
    ensures Wire(x', net)
  {
    hide Wrap32, Holds;
    forall t | t in net ensures Says(x', t) {
      assert Says(x, t);
    }
  }

  /** The peer's view of x survives x's holding more. */
  lemma LinkLater(y: End, x: End, x': End)
    requires Link(y, x) && HoldsMore(x, x') && Matches(x', y.numbered)
    ensures Link(y, x')
  {
    hide Holds, Matches;
  }

  // ---- Preservation, one call at x ------------------------------------------------------------

  lemma MatchesGrow(r: End, a: seq<Fragment>, b: seq<Fragment>)
    requires Matches(r, a) && a <= b
    ensures Matches(r, b)
  {
    hide NumberOf;
  }

  lemma HoldsSame(x: End, x': End)
    requires x'.rcv == x.rcv && x'.delivered == x.delivered && x'.k.rcvWnd == x.k.rcvWnd && x'.k.rcvBuf == x.k.rcvBuf
    ensures HoldsMore(x, x')
  {
    hide Holds;
    SameHolds(x, x');
  }

  lemma SendGood(x: End, y: End, netX: set<Tagged>, netY: set<Tagged>, bytes: seq<byte>)
    requires Good(x, y, netX, netY)
    ensures Good(AfterSend(x, bytes), y, netX, netY)
  {
    hide Wrap32, Fragments, Says, Matches, Holds, Windows;
    assert x.k.mss > 0 by { MssPositive(x); }
    SendKeeps(x.k, bytes);
    var x' := AfterSend(x, bytes);
    SendOnlyQueues(x.k, bytes);
    HoldsSame(x, x');
    SameHolds(x, x');
    WireLater(x, x', netX);
    SameMatches(x, x', y.numbered);
  }

  lemma MssPositive(x: End)
    requires Own(x)
    ensures x.k.mss > 0
  {
  }

  lemma SendOnlyQueues(k: Kcp, bytes: seq<byte>)
    requires k.mss > 0
    ensures Send(k, bytes) == k.(sndQueue := Send(k, bytes).sndQueue)
  {
  }

  lemma RecvGood(x: End, y: End, netX: set<Tagged>, netY: set<Tagged>, room: nat)
    requires Good(x, y, netX, netY)
    ensures Good(AfterRecv(x, room), y, netX, netY)
    ensures AfterRecv(x, room).k == Recv(x.k, room)
    ensures RecvResult(x.k, room).Message? ==>
              KeptQueue(x.(k := x.k.(rcvQueue := x.k.rcvQueue[FirstMessage(x.k.rcvQueue)..])), AfterRecv(x, room))
  {
    hide Wrap32, Says, Holds, RecvResult, Refilled, Refill, Matches, Windows;
    RecvKeeps(x.k, room);
    if RecvResult(x.k, room).Message? {
      var x1 := x.(k := x.k.(rcvQueue := x.k.rcvQueue[FirstMessage(x.k.rcvQueue)..]));
      OwnReceives(x);
      SameMatches(x, x1, y.numbered);
      assert Receiving(x1);
      RefillHistory(x1, y.numbered);
      RefillSends(x1.k);
      HoldsSame(x, x1);
      var x' := AfterRecv(x, room);
      SameMatches(Refilled(x1), x', y.numbered);
      SameHolds(Refilled(x1), x');
      WireLater(x, x', netX);
      assert Own(x');
      LinkLater(y, x, x');
    }
  }

  lemma RefillSends(k: Kcp)
    requires Windowed(k)
    ensures Refill(k) == k.(rcvQueue := Refill(k).rcvQueue, rcvBuf := Refill(k).rcvBuf, rcvNxt := Refill(k).rcvNxt)
  {
    RefillKeeps(k);
  }

  function TagSet(ts: seq<Tagged>): set<Tagged> {
    set t | t in ts
  }

  lemma FlushGoodWorld(x: End, y: End, netX: set<Tagged>, netY: set<Tagged>, timing: Timing)
    requires Good(x, y, netX, netY)
    ensures |x.ackNums| == |x.k.acks|
    ensures var f := FlushEnd(x, timing);
            Good(f.e, y, netX + TagSet(f.sent), netY) && f.e.k == Flush(x.k, timing).k
            && TagsOf(f.sent, Flush(x.k, timing).sent)
  {
    hide Wrap32, Holds, FlushEnd, Matches, Windows, Buffered, Flush;
    FlushEndOwn(x, timing);
    var f := FlushEnd(x, timing);
    HoldsSame(x, f.e);
    SameHolds(x, f.e);
    WireLater(x, f.e, netX);
    forall t | t in netX + TagSet(f.sent) ensures Says(f.e, t) {
      if t in f.sent {
        var i :| 0 <= i < |f.sent| && f.sent[i] == t;
      }
    }
    MatchesGrow(y, x.numbered, f.e.numbered);
    SameMatches(x, f.e, y.numbered);
    LinkLater(y, x, f.e);
  }

  /** What the peer has never exceeds what x has numbered. */
  lemma PeerBound(x: End, y: End)
    requires Own(x) && Own(y) && Link(x, y)
    ensures y.rcv <= x.nxt
    ensures forall n: nat :: Holds(y, n) ==> n < x.nxt
  {
    hide Wrap32, Windows, Buffered;
    forall n: nat | Holds(y, n) ensures n < x.nxt {
      if n >= y.rcv {
        OwnReceives(y);
        NumberOfWrap(y, n);
      }
    }
  }

  lemma UnaGood(x: End, y: End, netX: set<Tagged>, netY: set<Tagged>, u: nat)
    requires Good(x, y, netX, netY) && u <= y.rcv && x.nxt - u < HALF32
    ensures Good(TookUna(x, Wrap32(u), u), y, netX, netY)
  {
    hide Wrap32, Says, Holds, Matches, Windows, Buffered, NumberOf, UnaCount;
    PeerBound(x, y);
    TookUnaOwn(x, u);
    var x' := TookUna(x, Wrap32(u), u);
    HoldsSame(x, x');
    SameMatches(x, x', y.numbered);
    WireLater(x, x', netX);
    LinkLater(y, x, x');
    forall i | 0 <= i < |x'.k.sndBuf| && x'.k.sndBuf[i].acked ensures Holds(y, x'.una + i) {
      assert x.k.sndBuf[x'.una - x.una + i].acked;
    }
  }

  lemma AckGood(x: End, y: End, netX: set<Tagged>, netY: set<Tagged>, n: nat)
    requires Good(x, y, netX, netY) && Holds(y, n) && x.nxt - n < HALF32
    ensures Good(TookAck(x, Wrap32(n)), y, netX, netY)
  {
    hide Wrap32, Diff32, Says, Holds, Matches, Windows, Buffered, MarkAcked;
    PeerBound(x, y);
    TookAckOwn(x, n);
    var x' := TookAck(x, Wrap32(n));
    HoldsSame(x, x');
    SameMatches(x, x', y.numbered);
    WireLater(x, x', netX);
    LinkLater(y, x, x');
  }

  lemma PushGood(x: End, y: End, netX: set<Tagged>, netY: set<Tagged>, t: Tagged)
    requires Good(x, y, netX, netY) && t in netY && t.seg.cmd == Push && x.rcv - t.n < HALF32
    ensures Good(TookPush(x, t.seg, t.n), y, netX, netY)
    ensures TookPush(x, t.seg, t.n).k == PushedInto(x.k, t.seg) && KeptQueue(x, TookPush(x, t.seg, t.n))
  {
    hide Wrap32, Diff32, Holds, Matches, Buffered, TookPush;
    assert Says(y, t);
    assert t.n - x.rcv < HALF32;
    hide Windows;
    PushInput(x, t.seg, t.n, y);
    TookPushOwn(x, y.numbered, t.seg, t.n);
    var x' := TookPush(x, t.seg, t.n);
    WireLater(x, x', netX);
    LinkLater(y, x, x');
  }

  lemma InputGood(x: End, y: End, netX: set<Tagged>, netY: set<Tagged>, t: Tagged, regular: bool)
    requires Good(x, y, netX, netY) && t in netY && Fresh(x, t)
    ensures Good(AfterInput(x, t, regular), y, netX, netY)
    ensures AfterInput(x, t, regular).k == Input(x.k, t.seg, regular)
    ensures KeptQueue(x, AfterInput(x, t, regular))
  {
    hide Wrap32, Diff32, Own, Link, Wire, Matches, ParseUna, ParseAck;
    assert Says(y, t) by { WireSays(y, netY, t); }
    var x0 := if regular then x.(k := x.k.(rmtWnd := t.seg.wnd)) else x;
    assert Good(x0, y, netX, netY) by { QuietGood(x, x0, y, netX, netY); }
    UnaGood(x0, y, netX, netY, t.u);
    var x1 := TookUna(x0, t.seg.una, t.u);
    AcksLeaveQueue(x0, t.seg.una, t.u, t.seg.sn);
    AcksLeaveQueue(x1, t.seg.una, t.u, t.seg.sn);
    match t.seg.cmd
    case Ack => AckGood(x1, y, netX, netY, t.n);
    case Push => PushGood(x1, y, netX, netY, t);
    case Wask => QuietGood(x1, x1.(k := x1.k.(tell := true)), y, netX, netY);
    case Wins =>
  }

  lemma AcksLeaveQueue(e: End, una: u32, u: nat, sn: u32)
    ensures TookUna(e, una, u).k.rcvQueue == e.k.rcvQueue && TookAck(e, sn).k.rcvQueue == e.k.rcvQueue
  {
  }

  lemma WireSays(y: End, net: set<Tagged>, t: Tagged)
    requires Wire(y, net) && t in net
    ensures Says(y, t)
  {
  }

  lemma PushInput(e: End, seg: Segment, n: nat, y: End)
    requires Own(e) && Matches(e, y.numbered) && seg.cmd == Push && seg.sn == Wrap32(n)
    requires -HALF32 <= n - e.rcv < HALF32 && n < |y.numbered| && seg.fragment == y.numbered[n]
    ensures TookPush(e, seg, n).k == PushedInto(e.k, seg)
  {
    hide Wrap32, Diff32, TookData, ParseData, Matches, Windows, Holds;
    var e1 := e.(k := e.k.(acks := e.k.acks + [AckItem(seg.sn, seg.ts)]), ackNums := e.ackNums + [n]);
    OwnReceives(e);
    SameMatches(e, e1, y.numbered);
    assert Receiving(e1);
    TookDataOwn(e1, y.numbered, n, seg.fragment);
  }

  /** Fields that neither window looks at. */
  lemma QuietGood(x: End, x': End, y: End, netX: set<Tagged>, netY: set<Tagged>)
    requires Good(x, y, netX, netY)
    requires x' == x.(k := x.k.(rmtWnd := x'.k.rmtWnd, tell := x'.k.tell))
    ensures Good(x', y, netX, netY)
  {
    hide Wrap32, Says, Holds, Matches;
    HoldsSame(x, x');
    SameHolds(x, x');
    SameMatches(x, x', y.numbered);
    WireLater(x, x', netX);
    LinkLater(y, x, x');
  }
}
