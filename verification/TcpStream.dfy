/**
 * Two ends of one connection over a network that drops, duplicates and reorders segments at will:
 * what one application reads is a prefix of what the other wrote.
 */
module TcpStream {
  import opened Words
  import opened TcpConn
  import opened TcpInvariant
  import opened TcpEndpoint
  import opened TcpLocal
  import opened TcpArrival

  /** A segment and the unbounded numbers its 32-bit fields stand for. */
  datatype Tagged = Tagged(p: Segment, s: int, a: int)

  datatype Side = A | B

  /** ab and ba hold every segment A and B ever sent, resets apart; born says B's stack has made its end. */
  datatype World = World(a: End, b: End, ab: set<Tagged>, ba: set<Tagged>, born: bool)

  datatype Action =
    | Birth(t: Tagged)
    | Deliver(to: Side, t: Tagged)
    | Reset(to: Side, p: Segment)
    | Local(at: Side, ev: Event)

  function Tags(e: End, sent: seq<Segment>): set<Tagged> {
    set i | 0 <= i < |sent| && !sent[i].flags.rst :: Tagged(sent[i], SeqOf(e, sent[i]), e.rcv)
  }

  function Unborn(iss: u32): End {
    End(Accepted(iss, Segment(0, 0, SYN, 0, 0, [])).conn.(phase := Closed), 0, 1, 0, [], [], [])
  }

  /** A has dialled, with its SYN sent; B listens. */
  function Start(issA: u32, issB: u32): World {
    var a := End(Dialled(issA).conn, 0, 1, 0, [], [], []);
    World(a, Unborn(issB), Tags(a, Dialled(issA).sent), {}, false)
  }

  /** Not more than 2^31 numbers older than what the receiving end expects. */
  predicate Fresh(e: End, t: Tagged) {
    e.rcv - t.s < HALF32 && e.una - t.a < HALF32
  }

  predicate Enabled(w: World, act: Action) {
    match act
    case Birth(t) => !w.born && t in w.ab && t.p.flags == SYN
    case Deliver(A, t) => t in w.ba && w.a.conn.phase != Closed && Fresh(w.a, t)
    case Deliver(B, t) => t in w.ab && w.born && w.b.conn.phase != Closed && Fresh(w.b, t)
    case Reset(A, p) => p.flags.rst && w.a.conn.phase != Closed
    case Reset(B, p) => p.flags.rst && w.born && w.b.conn.phase != Closed
    case Local(side, ev) => !ev.Arrive? && (side == B ==> w.born)
  }

  function StepAt(w: World, side: Side, ev: Event): World {
    match side
    case A =>
      var e := After(w.a, ev);
      w.(a := e, ab := w.ab + Tags(e, Step(w.a.conn, ev).sent))
    case B =>
      var e := After(w.b, ev);
      w.(b := e, ba := w.ba + Tags(e, Step(w.b.conn, ev).sent))
  }

  function Next(w: World, act: Action): World {
    match act
    case Birth(t) =>
      var o := Accepted(w.b.conn.iss, t.p);
      var e := End(o.conn, 0, 1, 1, [], [], []);
      w.(b := e, ba := Tags(e, o.sent), born := true)
    case Deliver(side, t) => StepAt(w, side, Arrive(t.p))
    case Reset(side, p) => StepAt(w, side, Arrive(p))
    case Local(side, ev) => StepAt(w, side, ev)
  }

  /** worlds[i] leads to worlds[i + 1] by acts[i], from A's dialling on. */
  predicate IsRun(worlds: seq<World>, acts: seq<Action>, issA: u32, issB: u32) {
    && |worlds| == |acts| + 1 && worlds[0] == Start(issA, issB)
    && forall i :: 0 <= i < |acts| ==> Enabled(worlds[i], acts[i]) && worlds[i + 1] == Next(worlds[i], acts[i])
  }

  // ---- The invariant of the two ends and the network ------------------------------------------

  /** What a segment from s says, as seen by r. */
  predicate OnWire(s: End, r: End, t: Tagged) {
    && !t.p.flags.rst
    && t.p.seqNum == Wrap32(s.conn.iss + t.s)
    && 0 <= t.s && t.s + SegLen(t.p) <= s.nxt
    && (t.p.flags.syn ==> t.s == 0 && t.p.data == [] && !t.p.flags.fin)
    && (t.p.data != [] ==> Genuine(s.written, t.s, t.p.data) || t.s + |t.p.data| <= r.rcv)
    && (t.p.flags.fin ==> s.conn.finSent && t.p.data == [] && t.s == 1 + |s.written|)
    && (t.p.flags.ack ==> 1 <= t.a <= s.rcv && t.p.ackNum == Wrap32(r.conn.iss + t.a))
  }

  /** The stream from s to r: acknowledged at most what was received, received at most what was sent. */
  predicate Stream(s: End, r: End) {
    && Synced(r, s.conn.iss)
    && s.una <= r.rcv <= s.nxt
    && r.got <= s.written
    && (r.conn.recvFin ==> s.conn.finSent && r.got == s.written)
  }

  predicate Wire(s: End, r: End, net: set<Tagged>) {
    forall t :: t in net ==> OnWire(s, r, t)
  }

  predicate Good2(s: End, r: End, netS: set<Tagged>, netR: set<Tagged>) {
    Own(s) && Own(r) && Stream(s, r) && Stream(r, s) && Wire(s, r, netS) && Wire(r, s, netR)
  }

  /** Before B exists it has sent and received nothing, and A is still waiting. */
  predicate Waiting(w: World) {
    && w.b == Unborn(w.b.conn.iss) && w.ba == {}
    && Own(w.a) && w.a.una == 0 && w.a.rcv == 0
    && Wire(w.a, w.b, w.ab)
  }

  predicate Holds(w: World) {
    if w.born then Good2(w.a, w.b, w.ab, w.ba) else Waiting(w)
  }

  // ---- Preservation ---------------------------------------------------------------------------

  /** Segments already on the wire stay true as both ends go on. */
  lemma WireGrows(s: End, r: End, s': End, r': End, net: set<Tagged>)
    requires Wire(s, r, net) && Continues(s, s') && Continues(r, r')
    ensures Wire(s', r', net)
  {
    hide Wrap32;
    forall t | t in net ensures OnWire(s', r', t) {
      assert OnWire(s, r, t);
    }
  }

  lemma ContinuesSelf(e: End)
    ensures Continues(e, e)
  {
  }

  /** What an end truthfully sends goes onto the wire. */
  lemma WireSends(s: End, r: End, sent: seq<Segment>)
    requires AllTruthful(s, sent) && Synced(s, r.conn.iss) && s.una <= r.rcv
    ensures Wire(s, r, Tags(s, sent))
  {
    hide Wrap32, Genuine;
    forall t | t in Tags(s, sent) ensures OnWire(s, r, t) {
      var i :| 0 <= i < |sent| && !sent[i].flags.rst && t == Tagged(sent[i], SeqOf(s, sent[i]), s.rcv);
      assert Truthful(s, sent[i]);
    }
  }

  lemma WireJoins(s: End, r: End, net: set<Tagged>, more: set<Tagged>)
    requires Wire(s, r, net) && Wire(s, r, more)
    ensures Wire(s, r, net + more)
  {
  }

  /** x takes a step with which both streams agree: the joint invariant carries over. */
  lemma Carry(x: End, y: End, netX: set<Tagged>, netY: set<Tagged>, ev: Event)
    requires Good2(x, y, netX, netY)
    requires Good(x, ev, After(x, ev)) && Stream(After(x, ev), y) && Stream(y, After(x, ev))
    ensures Good2(After(x, ev), y, netX + Tags(After(x, ev), Step(x.conn, ev).sent), netY)
  {
    hide Own, OnWire, After, Step, Continues, Tags, Wire, AllTruthful, Synced;
    var x' := After(x, ev);
    ContinuesSelf(y);
    WireGrows(x, y, x', y, netX);
    WireGrows(y, x, y, x', netY);
    WireSends(x', y, Step(x.conn, ev).sent);
    WireJoins(x', y, netX, Tags(x', Step(x.conn, ev).sent));
  }

  lemma CarryLocal(x: End, y: End, netX: set<Tagged>, netY: set<Tagged>, ev: Event)
    requires Good2(x, y, netX, netY) && !ev.Arrive?
    ensures Good2(After(x, ev), y, netX + Tags(After(x, ev), Step(x.conn, ev).sent), netY)
  {
    hide Own, After, Step, Wire, AllTruthful, Wrap32;
    LocalOwn(x, ev);
    StreamOnwards(x, y, After(x, ev));
    Carry(x, y, netX, netY, ev);
  }

  /** More written, more sent, nothing more received. */
  lemma StreamOnwards(x: End, y: End, x': End)
    requires Stream(x, y) && Stream(y, x) && Continues(x, x') && Quiet(x, x')
    ensures Stream(x', y) && Stream(y, x')
  {
    hide Wrap32;
  }

  lemma CarryReset(x: End, y: End, netX: set<Tagged>, netY: set<Tagged>, p: Segment)
    requires Good2(x, y, netX, netY) && p.flags.rst && x.conn.phase != Closed
    ensures Good2(After(x, Arrive(p)), y, netX + Tags(After(x, Arrive(p)), Step(x.conn, Arrive(p)).sent), netY)
  {
    hide After, Step, Wire, AllTruthful, Wrap32, Inv, Sending;
    ArriveOwn(x, y.conn.iss, p, 0, 0);
    var x' := After(x, Arrive(p));
    assert x'.got == x.got && x'.rcv == x.rcv && x'.una == x.una;
    Carry(x, y, netX, netY, Arrive(p));
  }

  lemma CarryDelivery(x: End, y: End, netX: set<Tagged>, netY: set<Tagged>, t: Tagged)
    requires Good2(x, y, netX, netY) && t in netY && Fresh(x, t) && x.conn.phase != Closed
    ensures Good2(After(x, Arrive(t.p)), y,
                  netX + Tags(After(x, Arrive(t.p)), Step(x.conn, Arrive(t.p)).sent), netY)
  {
    hide After, Step, AllTruthful, Wrap32, Inv, Sending, Receiving, Genuine;
    assert OnWire(y, x, t);
    ArriveOwn(x, y.conn.iss, t.p, t.s, t.a);
    StreamTakes(x, y, t, After(x, Arrive(t.p)));
    Carry(x, y, netX, netY, Arrive(t.p));
  }

  /** Whatever x takes from a segment of y continues y's stream. */
  lemma StreamTakes(x: End, y: End, t: Tagged, x': End)
    requires Own(x) && Own(x') && Continues(x, x')
    requires Stream(x, y) && Stream(y, x) && OnWire(y, x, t)
    requires Arrived(x, y.conn.iss, t.p, t.s, t.a, x')
    ensures Stream(x', y) && Stream(y, x')
  {
    hide Wrap32, Inv, Sending, Receiving, Genuine, Took;
    RcvCounts(x);
    RcvCounts(x');
    if |x'.got| > |x.got| {
      TakesGenuine(x, y, t, x');
    } else {
      WholePrefix(x.got, x'.got);
    }
    if |x'.got| == |y.written| {
      WholePrefix(x'.got, y.written);
    }
  }

  lemma WholePrefix(a: seq<byte>, b: seq<byte>)
    requires a <= b && |b| <= |a|
    ensures a == b
  {
  }

  lemma RcvCounts(e: End)
    requires Receiving(e)
    ensures e.rcv == 0 ==> |e.got| == 0 && !e.conn.recvFin
    ensures e.rcv > 0 ==> e.rcv == 1 + |e.got| + (if e.conn.recvFin then 1 else 0)
  {
  }

  lemma TakesGenuine(x: End, y: End, t: Tagged, x': End)
    requires x.got <= y.written && |x'.got| > |x.got| && Took(x, t.p, t.s, x')
    requires x.rcv > 0 ==> x.rcv == 1 + |x.got| + (if x.conn.recvFin then 1 else 0)
    requires t.p.data != [] ==> Genuine(y.written, t.s, t.p.data) || t.s + |t.p.data| <= x.rcv
    ensures x'.got <= y.written && 1 + |x'.got| <= t.s + |t.p.data|
  {
    var n := |x'.got| - |x.got|;
    SliceContinues(y.written, t.s - 1, t.p.data, |x.got|, n);
  }

  /** A slice of the data of a segment that starts where the prefix ends extends the prefix. */
  lemma SliceContinues(written: seq<byte>, at: nat, data: seq<byte>, k: nat, n: nat)
    requires at + |data| <= |written| && data == written[at..at + |data|]
    requires at <= k && k - at + n <= |data|
    ensures written[..k] + data[k - at..k - at + n] == written[..k + n]
  {
  }

  // ---- Runs -----------------------------------------------------------------------------------

  lemma StartHolds(issA: u32, issB: u32)
    ensures Holds(Start(issA, issB))
  {
    hide Wrap32;
    WrapUnique(issA, 0, issA);
    WrapUnique(issB, 0, issB);
    var o := Dialled(issA);
    var a := Start(issA, issB).a;
    StartInv(issA);
    SeqOfIs(a, o.sent[0], 0);
    WireSends(a, Unborn(issB), o.sent);
  }

  lemma StartInv(iss: u32)
    ensures Inv(Dialled(iss).conn)
  {
    Extend(iss, iss, 1);
  }

  lemma AcceptedInv(iss: u32, p: Segment)
    ensures Inv(Accepted(iss, p).conn)
  {
    Extend(iss, iss, 1);
  }

  lemma WaitingStep(w: World, ev: Event)
    requires !w.born && Waiting(w)
    requires !ev.Arrive? || (ev.p.flags.rst && w.a.conn.phase != Closed)
    ensures Waiting(StepAt(w, A, ev))
  {
    hide Own, After, Step, Wire, AllTruthful, Wrap32, Continues;
    if ev.Arrive? {
      ArriveOwn(w.a, w.b.conn.iss, ev.p, 0, 0);
    } else {
      LocalOwn(w.a, ev);
    }
    var a' := After(w.a, ev);
    ContinuesSelf(w.b);
    WireGrows(w.a, w.b, a', w.b, w.ab);
    WireSends(a', w.b, Step(w.a.conn, ev).sent);
    WireJoins(a', w.b, w.ab, Tags(a', Step(w.a.conn, ev).sent));
  }

  /** A SYN of A makes B's end, synchronised with A. */
  lemma BirthHolds(w: World, t: Tagged)
    requires !w.born && Waiting(w) && t in w.ab && t.p.flags == SYN
    ensures Holds(Next(w, Birth(t)))
  {
    hide Wrap32, Sending, Genuine;
    assert OnWire(w.a, w.b, t);
    var o := Accepted(w.b.conn.iss, t.p);
    var e := Next(w, Birth(t)).b;
    AddToWrap(w.a.conn.iss, 1);
    WrapUnique(w.a.conn.iss, 0, w.a.conn.iss);
    WrapUnique(w.b.conn.iss, 0, w.b.conn.iss);
    AcceptedInv(w.b.conn.iss, t.p);
    assert Sending(e) by { NewSending(e); }
    ContinuesSelf(w.a);
    WireGrows(w.a, w.b, w.a, e, w.ab);
    SeqOfIs(e, o.sent[0], 0);
    WireSends(e, w.a, o.sent);
  }

  lemma NewSending(e: End)
    requires e.conn.phase == SynReceived && e.una == 0 && e.nxt == 1 && e.written == [] && !e.conn.finSent
    ensures Sending(e)
  {
  }

  lemma StepHolds(w: World, act: Action)
    requires Holds(w) && Enabled(w, act)
    ensures Holds(Next(w, act))
  {
    hide Own, After, Step, Wire, Waiting, Good2, Tags, Fresh;
    match act
    case Birth(t) => BirthHolds(w, t);
    case Deliver(A, t) =>
      if w.born { CarryDelivery(w.a, w.b, w.ab, w.ba, t); } else { NothingYet(w); }
    case Deliver(B, t) =>
      Mirror(w.a, w.b, w.ab, w.ba);
      CarryDelivery(w.b, w.a, w.ba, w.ab, t);
      Mirror(Next(w, act).b, w.a, Next(w, act).ba, w.ab);
    case Reset(A, p) =>
      if w.born { CarryReset(w.a, w.b, w.ab, w.ba, p); } else { WaitingStep(w, Arrive(p)); }
    case Reset(B, p) =>
      Mirror(w.a, w.b, w.ab, w.ba);
      CarryReset(w.b, w.a, w.ba, w.ab, p);
      Mirror(Next(w, act).b, w.a, Next(w, act).ba, w.ab);
    case Local(A, ev) =>
      if w.born { CarryLocal(w.a, w.b, w.ab, w.ba, ev); } else { WaitingStep(w, ev); }
    case Local(B, ev) =>
      Mirror(w.a, w.b, w.ab, w.ba);
      CarryLocal(w.b, w.a, w.ba, w.ab, ev);
      Mirror(Next(w, act).b, w.a, Next(w, act).ba, w.ab);
  }

  lemma NothingYet(w: World)
    requires Waiting(w)
    ensures w.ba == {}
  {
  }

  lemma Mirror(s: End, r: End, netS: set<Tagged>, netR: set<Tagged>)
    requires Good2(s, r, netS, netR)
    ensures Good2(r, s, netR, netS)
  {
  }

  lemma {:induction false} RunHolds(worlds: seq<World>, acts: seq<Action>, issA: u32, issB: u32, k: nat)
    requires IsRun(worlds, acts, issA, issB) && k < |worlds|
    ensures Holds(worlds[k])
  {
    hide Holds, Next, Enabled, Start;
    if k == 0 {
      StartHolds(issA, issB);
    } else {
      RunHolds(worlds, acts, issA, issB, k - 1);
      assert Enabled(worlds[k - 1], acts[k - 1]) && worlds[k - 1 + 1] == Next(worlds[k - 1], acts[k - 1]);
      StepHolds(worlds[k - 1], acts[k - 1]);
    }
  }

  // ---- The theorems ---------------------------------------------------------------------------

  /** What r's application has read, and whether it may be told that the stream ended. */
  ghost predicate Safe(s: End, r: End) {
    && r.read <= s.written
    && (forall max :: ReadOf(r.conn, max) == Eof ==> r.read == s.written && s.conn.writeClosed)
  }

  lemma GoodIsSafe(s: End, r: End, netS: set<Tagged>, netR: set<Tagged>)
    requires Good2(s, r, netS, netR)
    ensures Safe(s, r)
  {
    hide Wire, Sending, Wrap32;
  }

  /**
   * In every run, each application reads a prefix of what the other wrote, and sees the end of the stream only
   * after it has read everything the other wrote before closing.
   */
  lemma StreamSafety(worlds: seq<World>, acts: seq<Action>, issA: u32, issB: u32, k: nat)
    requires IsRun(worlds, acts, issA, issB) && k < |worlds|
    ensures Safe(worlds[k].a, worlds[k].b) && Safe(worlds[k].b, worlds[k].a)
  {
    hide IsRun, Good2;
    RunHolds(worlds, acts, issA, issB, k);
    var w := worlds[k];
    if w.born {
      GoodIsSafe(w.a, w.b, w.ab, w.ba);
      Mirror(w.a, w.b, w.ab, w.ba);
      GoodIsSafe(w.b, w.a, w.ba, w.ab);
    } else {
      WaitingIsSafe(w);
    }
  }

  lemma WaitingIsSafe(w: World)
    requires Waiting(w)
    ensures Safe(w.a, w.b) && Safe(w.b, w.a)
  {
    hide Wire, Sending, Wrap32;
  }

  /** Bytes on the wire that the sender never wrote at that place: only a zero-window probe makes them up. */
  predicate MadeUp(s: End, t: Tagged) {
    t.p.data != [] && !Genuine(s.written, t.s, t.p.data)
  }

  /** In every run, a made-up byte lies below what its receiver expects next, so it cannot enter the stream. */
  lemma ProbeSafety(worlds: seq<World>, acts: seq<Action>, issA: u32, issB: u32, k: nat, t: Tagged)
    requires IsRun(worlds, acts, issA, issB) && k < |worlds|
    ensures t in worlds[k].ab && MadeUp(worlds[k].a, t) ==> t.s + |t.p.data| <= worlds[k].b.rcv
    ensures t in worlds[k].ba && MadeUp(worlds[k].b, t) ==> t.s + |t.p.data| <= worlds[k].a.rcv
  {
    hide IsRun, Own, Genuine, Wrap32;
    RunHolds(worlds, acts, issA, issB, k);
    var w := worlds[k];
    if t in w.ab { assert OnWire(w.a, w.b, t); }
    if t in w.ba { assert OnWire(w.b, w.a, t); }
  }
}
