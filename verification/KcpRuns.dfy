/**
 * Two KCP endpoints over a network that drops, duplicates and reorders segments: in every run nothing is lost,
 * nothing is delivered twice or out of order, and each message received is a message sent.
 */
module KcpRuns {
  import opened Words
  import opened Kcp
  import opened KcpWindow
  import opened KcpEndpoint
  import opened KcpMessages
  import opened KcpProtocol

  datatype Side = A | B

  /** An end with the application's history: messages sent and got, and the fragments Recv has taken. */
  datatype Peer = Peer(e: End, sent: seq<seq<byte>>, got: seq<seq<byte>>, taken: seq<Fragment>)

  /** ab and ba hold every segment the two ends ever sent. */
  datatype World = World(a: Peer, b: Peer, ab: set<Tagged>, ba: set<Tagged>)

  datatype Action =
    | DoSend(at: Side, bytes: seq<byte>)
    | DoRecv(at: Side, room: nat)
    | DoFlush(at: Side, timing: Timing)
    | Deliver(to: Side, t: Tagged, regular: bool)

  // ---- Steps ----------------------------------------------------------------------------------

  function Mirror(w: World): World {
    World(w.b, w.a, w.ba, w.ab)
  }

  function PeerSend(p: Peer, bytes: seq<byte>): Peer
    requires p.e.k.mss > 0
  {
    p.(e := AfterSend(p.e, bytes), sent := if SendCode(p.e.k, bytes) == 0 then p.sent + [bytes] else p.sent)
  }

  function PeerRecv(p: Peer, room: nat): Peer {
    var r := RecvResult(p.e.k, room);
    if !r.Message? then p else
    p.(e := AfterRecv(p.e, room), got := p.got + [r.bytes],
       taken := p.taken + p.e.k.rcvQueue[..FirstMessage(p.e.k.rcvQueue)])
  }

  predicate EnabledAtA(w: World, action: Action) {
    match action
    case DoSend(_, _) => w.a.e.k.mss > 0
    case DoRecv(_, _) => true
    case DoFlush(_, _) => |w.a.e.ackNums| == |w.a.e.k.acks|
    case Deliver(_, t, _) => t in w.ba && Fresh(w.a.e, t)
  }

  function NextAtA(w: World, action: Action): World
    requires EnabledAtA(w, action)
  {
    match action
    case DoSend(_, bytes) => w.(a := PeerSend(w.a, bytes))
    case DoRecv(_, room) => w.(a := PeerRecv(w.a, room))
    case DoFlush(_, timing) =>
      var f := FlushEnd(w.a.e, timing);
      w.(a := w.a.(e := f.e), ab := w.ab + TagSet(f.sent))
    case Deliver(_, t, regular) => w.(a := w.a.(e := AfterInput(w.a.e, t, regular)))
  }

  function SideOf(action: Action): Side {
    match action
    case DoSend(at, _) => at
    case DoRecv(at, _) => at
    case DoFlush(at, _) => at
    case Deliver(to, _, _) => to
  }

  predicate Enabled(w: World, action: Action) {
    EnabledAtA(if SideOf(action) == A then w else Mirror(w), action)
  }

  function Next(w: World, action: Action): World
    requires Enabled(w, action)
  {
    if SideOf(action) == A then NextAtA(w, action) else Mirror(NextAtA(Mirror(w), action))
  }

  /** worlds[i] leads to worlds[i + 1] by actions[i]. */
  predicate IsRun(worlds: seq<World>, actions: seq<Action>) {
    && |worlds| == |actions| + 1 && Start(worlds[0])
    && forall i :: 0 <= i < |actions| ==> Enabled(worlds[i], actions[i]) && worlds[i + 1] == Next(worlds[i], actions[i])
  }

  function NewPeer(mss: nat, stream: bool, sndWnd: nat, rcvWnd: nat): Peer {
    Peer(End(NewKcp(mss, stream, sndWnd, rcvWnd), 0, 0, 0, [], [], []), [], [], [])
  }

  /** Two new endpoints of one conversation, each with its own settings. */
  predicate Start(w: World) {
    && w.ab == {} && w.ba == {}
    && New(w.a) && New(w.b)
  }

  predicate New(p: Peer) {
    && p == NewPeer(p.e.k.mss, p.e.k.stream, p.e.k.sndWnd, p.e.k.rcvWnd)
    && p.e.k.mss > 0 && p.e.k.rcvWnd <= MAX_WINDOW
  }

  // ---- The invariant --------------------------------------------------------------------------

  /** Bytes: what s queued and numbered is what it sent; what r took is what it got. */
  predicate Accounts(p: Peer) {
    && Joined(p.e.numbered + p.e.k.sndQueue) == Concat(p.sent)
    && p.e.delivered == p.taken + p.e.k.rcvQueue
    && Joined(p.taken) == Concat(p.got)
  }

  /** Messages, when s is in message mode: they cross whole. */
  predicate Crosses(s: Peer, r: Peer) {
    s.e.k.mss > 0 &&
    (!s.e.k.stream ==>
      && AllSendable(s.sent, s.e.k.mss)
      && s.e.numbered + s.e.k.sndQueue == Cut(s.sent, s.e.k.mss)
      && r.got <= s.sent
      && r.taken == Cut(s.sent[..|r.got|], s.e.k.mss))
  }

  predicate Holding(w: World) {
    && Good(w.a.e, w.b.e, w.ab, w.ba)
    && Accounts(w.a) && Accounts(w.b)
    && Crosses(w.a, w.b) && Crosses(w.b, w.a)
  }

  lemma MirrorHolding(w: World)
    ensures Holding(Mirror(w)) == Holding(w)
  {
    hide Own, Link, Wire, Accounts, Crosses;
  }

  // ---- Each step ------------------------------------------------------------------------------

  lemma SendAccounts(p: Peer, bytes: seq<byte>)
    requires Accounts(p) && p.e.k.mss > 0
    ensures Accounts(PeerSend(p, bytes))
  {
    hide Fragments, Joined, Concat;
    var k := p.e.k;
    if SendCode(k, bytes) == 0 {
      var k1 := Extended(k, bytes);
      var n := Extension(k, bytes);
      var rest := bytes[n..];
      ExtendedJoins(p.e.numbered, k, bytes);
      ConcatAppend(p.sent, [bytes]);
      ConcatOne(bytes);
      assert bytes == bytes[..n] + rest;
      if rest != [] {
        var fs := Fragments(rest, k.mss, k.stream);
        FragmentsJoin(rest, k.mss, k.stream);
        JoinedAppend(p.e.numbered + k1.sndQueue, fs);
        assert p.e.numbered + (k1.sndQueue + fs) == (p.e.numbered + k1.sndQueue) + fs;
      }
    }
  }

  /** Extending the last queued segment appends its bytes to the stream. */
  lemma ExtendedJoins(numbered: seq<Fragment>, k: Kcp, bytes: seq<byte>)
    ensures Joined(numbered + Extended(k, bytes).sndQueue) ==
              Joined(numbered + k.sndQueue) + bytes[..Extension(k, bytes)]
  {
    hide Joined;
    var n := Extension(k, bytes);
    if n > 0 {
      var i := |k.sndQueue| - 1;
      var last := k.sndQueue[i];
      var before := numbered + k.sndQueue[..i];
      assert numbered + k.sndQueue == before + [last];
      assert numbered + Extended(k, bytes).sndQueue == before + [last.(data := last.data + bytes[..n])];
      JoinedAppend(before, [last]);
      JoinedAppend(before, [last.(data := last.data + bytes[..n])]);
      JoinedOne(last);
      JoinedOne(last.(data := last.data + bytes[..n]));
    }
  }

  lemma JoinedOne(f: Fragment)
    ensures Joined([f]) == f.data
  {
    assert Joined([f][1..]) == [];
  }

  lemma SendCrosses(s: Peer, r: Peer, bytes: seq<byte>)
    requires Crosses(s, r)
    ensures Crosses(PeerSend(s, bytes), r)
  {
    hide Fragments, Cut;
    var k := s.e.k;
    if !k.stream && SendCode(k, bytes) == 0 {
      assert Sendable(bytes, k.mss);
      assert AllSendable([bytes], k.mss);
      CutAppend(s.sent, [bytes], k.mss);
      CutOne(bytes, k.mss);
      assert bytes[0..] == bytes;
      assert (s.sent + [bytes])[..|r.got|] == s.sent[..|r.got|];
      assert s.e.numbered + (k.sndQueue + Fragments(bytes, k.mss, false)) ==
               (s.e.numbered + k.sndQueue) + Fragments(bytes, k.mss, false);
    }
  }

  lemma RecvAccounts(p: Peer, room: nat)
    requires Accounts(p)
    requires RecvResult(p.e.k, room).Message? ==>
      KeptQueue(p.e.(k := p.e.k.(rcvQueue := p.e.k.rcvQueue[FirstMessage(p.e.k.rcvQueue)..])), AfterRecv(p.e, room))
    requires AfterRecv(p.e, room).k.sndQueue == p.e.k.sndQueue && AfterRecv(p.e, room).numbered == p.e.numbered
    ensures Accounts(PeerRecv(p, room))
  {
    hide Joined, Concat, FirstMessage, PeekSize, AfterRecv;
    var r := RecvResult(p.e.k, room);
    if r.Message? {
      var n := FirstMessage(p.e.k.rcvQueue);
      var m := p.e.k.rcvQueue[..n];
      ConcatAppend(p.got, [r.bytes]);
      ConcatOne(r.bytes);
      JoinedAppend(p.taken, m);
      assert p.e.k.rcvQueue == m + p.e.k.rcvQueue[n..];
      QueueMoves(p.e, n, AfterRecv(p.e, room), p.taken);
    }
  }

  lemma QueueMoves(e: End, n: nat, e': End, taken: seq<Fragment>)
    requires n <= |e.k.rcvQueue| && e.delivered == taken + e.k.rcvQueue
    requires KeptQueue(e.(k := e.k.(rcvQueue := e.k.rcvQueue[n..])), e')
    ensures e'.delivered == taken + e.k.rcvQueue[..n] + e'.k.rcvQueue
  {
    var m := |e.k.rcvQueue| - n;
    assert e'.k.rcvQueue == e.k.rcvQueue[n..] + e'.k.rcvQueue[m..];
    assert e.k.rcvQueue == e.k.rcvQueue[..n] + e.k.rcvQueue[n..];
  }

  /** What Recv takes from s's messages is the next one of them. */
  lemma RecvCrosses(s: Peer, r: Peer, room: nat)
    requires Crosses(s, r) && Accounts(r) && r.e.delivered <= s.e.numbered
    ensures Crosses(s, PeerRecv(r, room))
  {
    hide Fragments, Cut, Joined, FirstMessage, PeekSize, AfterRecv, RecvResult;
    var result := RecvResult(r.e.k, room);
    if !s.e.k.stream && result.Message? {
      var rest := s.sent[|r.got|..];
      NextMessages(s, r);
      QueueHolds(r.e.k, rest, s.e.k.mss, room);
      var r' := PeerRecv(r, room);
      assert r'.got == r.got + [rest[0]];
      assert s.sent[..|r'.got|] == s.sent[..|r.got|] + [rest[0]];
      CutAppend(s.sent[..|r.got|], [rest[0]], s.e.k.mss);
      CutOne(rest[0], s.e.k.mss);
    }
  }

  /** What waits in the queue is the beginning of the messages not yet got. */
  lemma NextMessages(s: Peer, r: Peer)
    requires Crosses(s, r) && Accounts(r) && r.e.delivered <= s.e.numbered && !s.e.k.stream
    ensures AllSendable(s.sent[|r.got|..], s.e.k.mss)
    ensures r.e.k.rcvQueue <= Cut(s.sent[|r.got|..], s.e.k.mss)
  {
    hide Fragments, Cut, Joined, Concat;
    var n := |r.got|;
    assert s.sent == s.sent[..n] + s.sent[n..];
    CutAppend(s.sent[..n], s.sent[n..], s.e.k.mss);
    PrefixTail(r.taken, r.e.k.rcvQueue, s.e.numbered, s.e.k.sndQueue, Cut(s.sent[n..], s.e.k.mss));
  }

  lemma PrefixTail(taken: seq<Fragment>, queue: seq<Fragment>, numbered: seq<Fragment>, more: seq<Fragment>,
                   rest: seq<Fragment>)
    requires taken + queue <= numbered && numbered + more == taken + rest
    ensures queue <= rest
  {
    assert taken + queue <= taken + rest;
    assert (taken + rest)[|taken|..] == rest;
    assert (taken + queue)[|taken|..] == queue;
  }

  lemma FlushAccounts(p: Peer, e': End)
    requires Accounts(p)
    requires e'.delivered == p.e.delivered && e'.k.rcvQueue == p.e.k.rcvQueue
    requires e'.numbered + e'.k.sndQueue == p.e.numbered + p.e.k.sndQueue
    ensures Accounts(p.(e := e'))
  {
  }

  lemma InputAccounts(p: Peer, e': End)
    requires Accounts(p) && KeptQueue(p.e, e')
    requires e'.k.sndQueue == p.e.k.sndQueue && e'.numbered == p.e.numbered
    ensures Accounts(p.(e := e'))
  {
    hide Joined, Concat;
    QueueMoves(p.e, 0, e', p.taken);
  }

  lemma SameCrosses(s: Peer, e': End, r: Peer)
    requires e'.k.mss == s.e.k.mss && e'.k.stream == s.e.k.stream
    requires e'.numbered + e'.k.sndQueue == s.e.numbered + s.e.k.sndQueue
    ensures Crosses(s, r) == Crosses(s.(e := e'), r) && Crosses(r, s) == Crosses(r, s.(e := e'))
  {
    hide Cut;
  }

  lemma GoodDelivered(x: End, y: End, netX: set<Tagged>, netY: set<Tagged>)
    requires Good(x, y, netX, netY)
    ensures x.delivered <= y.numbered && x.k.mss > 0 && |x.ackNums| == |x.k.acks|
  {
    hide Wrap32;
  }

  lemma RecvSends(e: End, room: nat)
    requires AfterRecv(e, room).k == Recv(e.k, room)
    ensures AfterRecv(e, room).numbered == e.numbered && AfterRecv(e, room).k.sndQueue == e.k.sndQueue
    ensures AfterRecv(e, room).k.mss == e.k.mss && AfterRecv(e, room).k.stream == e.k.stream
  {
    hide RecvResult;
    if RecvResult(e.k, room).Message? {
      RefilledSends(e.(k := e.k.(rcvQueue := e.k.rcvQueue[FirstMessage(e.k.rcvQueue)..])));
    }
  }

  lemma {:induction false} RefilledSends(e: End)
    ensures Refilled(e).numbered == e.numbered && Refilled(e).k.sndQueue == e.k.sndQueue
    ensures Refilled(e).k.mss == e.k.mss && Refilled(e).k.stream == e.k.stream
    decreases |e.k.rcvBuf|
  {
    if e.k.rcvNxt in e.k.rcvBuf && |e.k.rcvQueue| < e.k.rcvWnd {
      RefilledSends(MovedOne(e));
    }
  }

  lemma InputSends(e: End, t: Tagged, regular: bool)
    ensures var e' := AfterInput(e, t, regular);
            e'.numbered == e.numbered && e'.k.sndQueue == e.k.sndQueue && e'.k.mss == e.k.mss
            && e'.k.stream == e.k.stream
  {
    hide Wrap32, Diff32, UnaCount, MarkAcked, Refilled;
    var e1 := TookUna(if regular then e.(k := e.k.(rmtWnd := t.seg.wnd)) else e, t.seg.una, t.u);
    var e2 := e1.(k := e1.k.(acks := e1.k.acks + [AckItem(t.seg.sn, t.seg.ts)]), ackNums := e1.ackNums + [t.n]);
    RefilledSends(Inserted(e2, t.seg.sn, t.seg.fragment));
  }

  lemma StepAtA(w: World, action: Action)
    requires Holding(w) && EnabledAtA(w, action)
    ensures Holding(NextAtA(w, action))
  {
    hide Own, Link, Wire, Accounts, Crosses, AfterSend, AfterRecv, AfterInput, FlushEnd, Fresh;
    var x, y := w.a.e, w.b.e;
    GoodDelivered(x, y, w.ab, w.ba);
    match action
    case DoSend(_, bytes) => SendStep(w, bytes);
    case DoRecv(_, room) => RecvStep(w, room);
    case DoFlush(_, timing) => FlushStep(w, timing);
    case Deliver(_, t, regular) => DeliverStep(w, t, regular);
  }

  lemma SendStep(w: World, bytes: seq<byte>)
    requires Holding(w) && w.a.e.k.mss > 0
    ensures Holding(w.(a := PeerSend(w.a, bytes)))
  {
    hide Own, Link, Wire, Accounts, Concat, Joined, Fragments, Cut;
    SendGood(w.a.e, w.b.e, w.ab, w.ba, bytes);
    SendAccounts(w.a, bytes);
    SendCrosses(w.a, w.b, bytes);
    SendOnlyQueues(w.a.e.k, bytes);
  }

  lemma RecvStep(w: World, room: nat)
    requires Holding(w)
    ensures Holding(w.(a := PeerRecv(w.a, room)))
  {
    hide Own, Link, Wire, Accounts, Concat, Joined, Fragments, Cut, RecvResult, AfterRecv, FirstMessage;
    RecvGood(w.a.e, w.b.e, w.ab, w.ba, room);
    RecvSends(w.a.e, room);
    RecvAccounts(w.a, room);
    GoodDelivered(w.a.e, w.b.e, w.ab, w.ba);
    RecvCrosses(w.b, w.a, room);
  }

  lemma FlushStep(w: World, timing: Timing)
    requires Holding(w) && |w.a.e.ackNums| == |w.a.e.k.acks|
    ensures var f := FlushEnd(w.a.e, timing);
            Holding(w.(a := w.a.(e := f.e), ab := w.ab + TagSet(f.sent)))
  {
    hide Own, Link, Wire, Accounts, Crosses, FlushEnd, Flush, AllSay, TagsOf;
    var f := FlushEnd(w.a.e, timing);
    FlushGoodWorld(w.a.e, w.b.e, w.ab, w.ba, timing);
    FlushEndOwn(w.a.e, timing);
    FlushAccounts(w.a, f.e);
    SameCrosses(w.a, f.e, w.b);
  }

  lemma DeliverStep(w: World, t: Tagged, regular: bool)
    requires Holding(w) && t in w.ba && Fresh(w.a.e, t)
    ensures Holding(w.(a := w.a.(e := AfterInput(w.a.e, t, regular))))
  {
    hide Own, Link, Wire, Accounts, Crosses, AfterInput, Fresh, KeptQueue;
    var e' := AfterInput(w.a.e, t, regular);
    InputGood(w.a.e, w.b.e, w.ab, w.ba, t, regular);
    InputSends(w.a.e, t, regular);
    InputAccounts(w.a, e');
    SameCrosses(w.a, e', w.b);
  }

  lemma StartHolding(w: World)
    requires Start(w)
    ensures Holding(w)
  {
    hide Diff32;
    assert Matches(w.a.e, []) && Matches(w.b.e, []);
  }

  lemma StepHolding(w: World, action: Action)
    requires Holding(w) && Enabled(w, action)
    ensures Holding(Next(w, action))
    ensures Next(w, action).a.e.k.stream == w.a.e.k.stream && Next(w, action).b.e.k.stream == w.b.e.k.stream
  {
    hide Holding, EnabledAtA, NextAtA;
    if SideOf(action) == A {
      StepAtA(w, action);
      StepMode(w, action);
    } else {
      MirrorHolding(w);
      StepAtA(Mirror(w), action);
      StepMode(Mirror(w), action);
      MirrorHolding(NextAtA(Mirror(w), action));
    }
  }

  lemma {:induction false} RunHolding(worlds: seq<World>, actions: seq<Action>, n: nat)
    requires IsRun(worlds, actions) && n < |worlds|
    ensures Holding(worlds[n])
    ensures worlds[n].a.e.k.stream == worlds[0].a.e.k.stream && worlds[n].b.e.k.stream == worlds[0].b.e.k.stream
  {
    hide Holding, Enabled, Next, Start;
    if n == 0 {
      StartHolding(worlds[0]);
    } else {
      RunHolding(worlds, actions, n - 1);
      assert Enabled(worlds[n - 1], actions[n - 1]) && worlds[n - 1 + 1] == Next(worlds[n - 1], actions[n - 1]);
      StepHolding(worlds[n - 1], actions[n - 1]);
    }
  }

  // ---- Theorems -------------------------------------------------------------------------------

  /** Number n is with s, unacknowledged and with its original data. */
  predicate StillSent(s: End, n: nat) {
    && s.una <= n && n - s.una < |s.k.sndBuf| && n < |s.numbered|
    && !s.k.sndBuf[n - s.una].acked && s.k.sndBuf[n - s.una].fragment == s.numbered[n]
  }

  /** Number n is with r, delivered in its place or waiting out of order, with the data s gave it. */
  predicate Arrived(s: End, r: End, n: nat) {
    && n < |s.numbered|
    && if n < |r.delivered| then r.delivered[n] == s.numbered[n]
       else Wrap32(n) in r.k.rcvBuf && r.k.rcvBuf[Wrap32(n)] == s.numbered[n]
  }

  ghost predicate NothingLost(s: End, r: End) {
    forall n: nat :: n < s.nxt ==> StillSent(s, n) || Arrived(s, r, n)
  }

  lemma NothingLostNow(s: End, r: End)
    requires Own(s) && Own(r) && Link(s, r)
    ensures NothingLost(s, r)
  {
    hide Wrap32, Windows;
    forall n: nat | n < s.nxt ensures StillSent(s, n) || Arrived(s, r, n) {
      if !StillSent(s, n) {
        assert Holds(r, n);
        if n >= r.rcv {
          assert r.k.rcvWnd <= MAX_WINDOW by { OwnReceives(r); }
          NumberOfWrap(r, n);
        }
      }
    }
  }

  /**
   * No loss: every number used is, at every moment of every run, still with its sender or already with its receiver.
   */
  lemma NoLoss(worlds: seq<World>, actions: seq<Action>, n: nat)
    requires IsRun(worlds, actions) && n < |worlds|
    ensures NothingLost(worlds[n].a.e, worlds[n].b.e) && NothingLost(worlds[n].b.e, worlds[n].a.e)
  {
    hide IsRun, Own, Link, Wire, Accounts, Crosses, NothingLost;
    RunHolding(worlds, actions, n);
    NothingLostNow(worlds[n].a.e, worlds[n].b.e);
    NothingLostNow(worlds[n].b.e, worlds[n].a.e);
  }

  /**
   * Exactly once and in order, in both modes and both directions: what one side got is a prefix of what the other sent.
   */
  lemma InOrderDelivery(worlds: seq<World>, actions: seq<Action>, n: nat)
    requires IsRun(worlds, actions) && n < |worlds|
    ensures Concat(worlds[n].b.got) <= Concat(worlds[n].a.sent) && Concat(worlds[n].a.got) <= Concat(worlds[n].b.sent)
    ensures !worlds[0].a.e.k.stream ==> worlds[n].b.got <= worlds[n].a.sent
    ensures !worlds[0].b.e.k.stream ==> worlds[n].a.got <= worlds[n].b.sent
  {
    hide IsRun, Own, Link, Wire, Accounts, Cut;
    RunHolding(worlds, actions, n);
    var w := worlds[n];
    GoodDelivered(w.b.e, w.a.e, w.ba, w.ab);
    GoodDelivered(w.a.e, w.b.e, w.ab, w.ba);
    BytesCross(w.a, w.b);
    BytesCross(w.b, w.a);
  }

  lemma BytesCross(s: Peer, r: Peer)
    requires Accounts(s) && Accounts(r) && r.e.delivered <= s.e.numbered
    ensures Concat(r.got) <= Concat(s.sent)
  {
    hide Joined, Concat;
    var rest := s.e.numbered[|r.e.delivered|..] + s.e.k.sndQueue;
    JoinedAppend(r.taken, r.e.k.rcvQueue);
    JoinedAppend(r.e.delivered, rest);
    assert s.e.numbered + s.e.k.sndQueue == r.e.delivered + rest;
  }

  /** In message mode the receiver's next Recv depends on nothing but the next message and how much of it arrived. */
  lemma NextRecv(worlds: seq<World>, actions: seq<Action>, n: nat, room: nat)
    requires IsRun(worlds, actions) && n < |worlds| && !worlds[0].a.e.k.stream
    ensures var s, r := worlds[n].a, worlds[n].b;
            && r.got <= s.sent && s.e.k.mss > 0 && AllSendable(s.sent, s.e.k.mss)
            && var rest := s.sent[|r.got|..];
               RecvResult(r.e.k, room) ==
               if rest == [] || |r.e.k.rcvQueue| < |Fragments(rest[0], s.e.k.mss, false)| then NoData
               else if |rest[0]| > room then Short
               else Message(rest[0])
  {
    hide IsRun, Own, Link, Wire, Accounts, Cut, Fragments, RecvResult;
    RunHolding(worlds, actions, n);
    var w := worlds[n];
    GoodDelivered(w.b.e, w.a.e, w.ba, w.ab);
    NextMessages(w.a, w.b);
    QueueHolds(w.b.e.k, w.a.sent[|w.b.got|..], w.a.e.k.mss, room);
  }

  lemma StepMode(w: World, action: Action)
    requires Holding(w) && EnabledAtA(w, action)
    ensures NextAtA(w, action).a.e.k.stream == w.a.e.k.stream && NextAtA(w, action).b == w.b
  {
    hide Own, Link, Wire, Accounts, Crosses, AfterSend, AfterRecv, AfterInput, FlushEnd, Flush, Fresh, RecvResult;
    match action
    case DoSend(_, bytes) => SendMode(w.a.e, bytes);
    case DoRecv(_, room) =>
      RecvGood(w.a.e, w.b.e, w.ab, w.ba, room);
      RecvSends(w.a.e, room);
    case DoFlush(_, timing) =>
      GoodOwn(w.a.e, w.b.e, w.ab, w.ba);
      FlushEndOwn(w.a.e, timing);
    case Deliver(_, t, regular) => InputSends(w.a.e, t, regular);
  }

  lemma SendMode(e: End, bytes: seq<byte>)
    requires e.k.mss > 0
    ensures AfterSend(e, bytes).k.stream == e.k.stream
  {
    hide Fragments;
  }

  lemma GoodOwn(x: End, y: End, netX: set<Tagged>, netY: set<Tagged>)
    requires Good(x, y, netX, netY)
    ensures Own(x)
  {
  }
}
