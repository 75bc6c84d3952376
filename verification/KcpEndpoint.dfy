/** One KCP endpoint with its history: every fragment it numbered, and every fragment it delivered in order. */
module KcpEndpoint {
  import opened Words
  import opened Kcp
  import opened KcpWindow

  /**
   * una, nxt and rcv are the unbounded numbers behind sndUna, sndNxt and rcvNxt. numbered[n] is the fragment sent
   * under number n, delivered what has entered rcv_queue, and ackNums the unbounded numbers of the pending acks.
   */
  datatype End = End(k: Kcp, una: nat, nxt: nat, rcv: nat,
                     numbered: seq<Fragment>, delivered: seq<Fragment>, ackNums: seq<nat>)

  /** A segment with the unbounded numbers of its sn and una. */
  datatype Tagged = Tagged(seg: Segment, n: nat, u: nat)

  predicate Own(e: End) {
    && Windows(e.k)
    && e.k.sndUna == Wrap32(e.una) && e.k.sndNxt == Wrap32(e.nxt) && e.k.rcvNxt == Wrap32(e.rcv)
    && e.nxt - e.una == |e.k.sndBuf| && |e.numbered| == e.nxt && |e.delivered| == e.rcv
    && |e.ackNums| == |e.k.acks|
    && Buffered(e)
    && (forall i :: 0 <= i < |e.ackNums| ==> e.k.acks[i].sn == Wrap32(e.ackNums[i]) && Holds(e, e.ackNums[i]))
  }

  /** A segment not yet acknowledged still has its original data. */
  predicate Buffered(e: End) {
    && e.una + |e.k.sndBuf| <= |e.numbered|
    && forall i :: 0 <= i < |e.k.sndBuf| && !e.k.sndBuf[i].acked ==> e.k.sndBuf[i].fragment == e.numbered[e.una + i]
  }

  /** Number n has been delivered, or waits out of order. */
  predicate Holds(e: End, n: nat) {
    n < e.rcv || (n - e.rcv < e.k.rcvWnd && Wrap32(n) in e.k.rcvBuf)
  }

  /** The unbounded number of an out-of-order segment. */
  function NumberOf(e: End, sn: u32): nat {
    e.rcv + Wrap32(sn - e.k.rcvNxt)
  }

  lemma NumberOfWrap(e: End, n: nat)
    requires e.k.rcvNxt == Wrap32(e.rcv) && 0 <= n - e.rcv < 0x1_0000_0000
    ensures NumberOf(e, Wrap32(n)) == n
  {
    SubtractWraps(n, e.rcv);
    WrapNear(n - e.rcv);
  }

  // ---- Refill ---------------------------------------------------------------------------------

  /** refill with its history: each move delivers the next number. */
  function Refilled(e: End): End
    decreases |e.k.rcvBuf|
  {
    if e.k.rcvNxt in e.k.rcvBuf && |e.k.rcvQueue| < e.k.rcvWnd then
      Refilled(e.(k := e.k.(rcvQueue := e.k.rcvQueue + [e.k.rcvBuf[e.k.rcvNxt]],
                            rcvBuf := e.k.rcvBuf - {e.k.rcvNxt},
                            rcvNxt := Wrap32(e.k.rcvNxt + 1)),
                  rcv := e.rcv + 1, delivered := e.delivered + [e.k.rcvBuf[e.k.rcvNxt]]))
    else e
  }

  /** The receiving side against the sender's numbering: delivered so far, and held out of order. */
  predicate Matches(e: End, numbered: seq<Fragment>) {
    && e.delivered <= numbered
    && forall sn :: sn in e.k.rcvBuf ==> NumberOf(e, sn) < |numbered| && e.k.rcvBuf[sn] == numbered[NumberOf(e, sn)]
  }

  predicate Receiving(e: End) {
    Windowed(e.k) && e.k.rcvNxt == Wrap32(e.rcv) && |e.delivered| == e.rcv
  }

  /** e' has what e has on the receiving side, and perhaps more. */
  ghost predicate HoldsMore(e: End, e': End) {
    e.rcv <= e'.rcv && e.delivered <= e'.delivered && forall n: nat :: Holds(e, n) ==> Holds(e', n)
  }

  function MovedOne(e: End): End
    requires e.k.rcvNxt in e.k.rcvBuf
  {
    e.(k := e.k.(rcvQueue := e.k.rcvQueue + [e.k.rcvBuf[e.k.rcvNxt]],
                 rcvBuf := e.k.rcvBuf - {e.k.rcvNxt},
                 rcvNxt := Wrap32(e.k.rcvNxt + 1)),
       rcv := e.rcv + 1, delivered := e.delivered + [e.k.rcvBuf[e.k.rcvNxt]])
  }

  lemma MoveKeeps(e: End, numbered: seq<Fragment>)
    requires Receiving(e) && Matches(e, numbered) && e.k.rcvNxt in e.k.rcvBuf
    ensures Receiving(MovedOne(e)) && Matches(MovedOne(e), numbered)
    ensures HoldsMore(e, MovedOne(e))
  {
    hide Wrap32;
    var e' := MovedOne(e);
    AddToWrap(e.rcv, 1);
    WrapNear(0);
    assert NumberOf(e, e.k.rcvNxt) == e.rcv;
    forall sn | sn in e'.k.rcvBuf ensures NumberOf(e', sn) == NumberOf(e, sn) && Wrap32(sn - e'.k.rcvNxt) < e.k.rcvWnd {
      AdvanceInWindow(sn, e.k.rcvNxt);
    }
    forall n: nat | Holds(e, n) ensures Holds(e', n) {
      if n > e.rcv {
        assert Wrap32(n) != e.k.rcvNxt by { DiffOfWraps(n, e.rcv); }
      }
    }
  }

  lemma {:induction false} RefillHistory(e: End, numbered: seq<Fragment>)
    requires Receiving(e) && Matches(e, numbered)
    ensures var e' := Refilled(e);
            && e'.k == Refill(e.k)
            && e' == e.(k := e'.k, rcv := e'.rcv, delivered := e'.delivered)
            && Receiving(e') && Matches(e', numbered) && HoldsMore(e, e')
            && e.k.rcvQueue <= e'.k.rcvQueue
            && e'.delivered == e.delivered + e'.k.rcvQueue[|e.k.rcvQueue|..]
    decreases |e.k.rcvBuf|
  {
    hide Wrap32, Matches, Receiving, Holds;
    if e.k.rcvNxt in e.k.rcvBuf && |e.k.rcvQueue| < e.k.rcvWnd {
      MoveKeeps(e, numbered);
      RefillHistory(MovedOne(e), numbered);
    }
  }

  // ---- Acknowledgements -----------------------------------------------------------------------

  /** A cumulative acknowledgement of u, not too stale, covers the segments below u and no others. */
  lemma {:induction false} UnaCounts(buf: seq<Outgoing>, first: nat, u: nat)
    requires |buf| <= MAX_WINDOW && (forall i :: 0 <= i < |buf| ==> buf[i].sn == Wrap32(first + i))
    requires first - u < HALF32 && u <= first + |buf|
    ensures UnaCount(buf, Wrap32(u)) == if u <= first then 0 else u - first
    decreases |buf|
  {
    hide Wrap32, Diff32;
    if buf != [] {
      DiffOfWraps(u, first);
      if u > first {
        UnaCounts(buf[1..], first + 1, u);
      }
    }
  }

  /** Marking number n marks that place of the run and no other. */
  lemma {:induction false} MarkAt(buf: seq<Outgoing>, first: nat, n: nat)
    requires |buf| <= MAX_WINDOW && (forall i :: 0 <= i < |buf| ==> buf[i].sn == Wrap32(first + i))
    requires first <= n < first + |buf|
    ensures var r := MarkAcked(buf, Wrap32(n));
            forall i :: 0 <= i < |buf| ==>
              r[i] == if first + i == n then buf[i].(acked := true, fragment := buf[i].fragment.(data := []))
                      else buf[i]
    decreases |buf|
  {
    hide Wrap32, Diff32;
    DiffOfWraps(n, first);
    assert buf[0].sn == Wrap32(first);
    if n > first {
      MarkAt(buf[1..], first + 1, n);
    }
  }

  function TookUna(e: End, una: u32, u: nat): End {
    e.(k := ParseUna(e.k, una), una := if e.una < u then u else e.una)
  }

  lemma TookUnaDrops(e: End, u: nat)
    requires Own(e) && e.una - u < HALF32 && u <= e.nxt
    ensures var e' := TookUna(e, Wrap32(u), u);
            && 0 <= e'.una - e.una <= |e.k.sndBuf|
            && e'.k == e.k.(sndBuf := e.k.sndBuf[e'.una - e.una..], sndUna := Wrap32(e'.una))
  {
    hide Wrap32, Diff32, Holds, Windows, UnaCount, Buffered;
    UnaCountsOf(e, u);
  }

  lemma TookUnaOwn(e: End, u: nat)
    requires Own(e) && e.una - u < HALF32 && u <= e.nxt
    ensures Own(TookUna(e, Wrap32(u), u))
    ensures forall i :: 0 <= i < |TookUna(e, Wrap32(u), u).k.sndBuf| ==>
              TookUna(e, Wrap32(u), u).k.sndBuf[i] == e.k.sndBuf[TookUna(e, Wrap32(u), u).una - e.una + i]
  {
    hide Wrap32, Diff32, Holds, Windows, ParseUna;
    TookUnaDrops(e, u);
    ParseUnaKeeps(e.k, Wrap32(u));
    SameHolds(e, TookUna(e, Wrap32(u), u));
  }

  lemma UnaCountsOf(e: End, u: nat)
    requires Own(e) && e.una - u < HALF32 && u <= e.nxt
    ensures UnaCount(e.k.sndBuf, Wrap32(u)) == if u <= e.una then 0 else u - e.una
    ensures forall i :: 0 <= i < |e.k.sndBuf| ==> e.k.sndBuf[i].sn == Wrap32(e.una + i)
  {
    hide Wrap32, Diff32, Holds;
    forall i | 0 <= i < |e.k.sndBuf| ensures e.k.sndBuf[i].sn == Wrap32(e.una + i) {
      AddToWrap(e.una, i);
    }
    UnaCounts(e.k.sndBuf, e.una, u);
  }

  /** What an end holds depends on its receiving side only. */
  lemma SameHolds(e: End, e': End)
    requires e'.rcv == e.rcv && e'.k.rcvWnd == e.k.rcvWnd && e'.k.rcvBuf == e.k.rcvBuf
    ensures forall n: nat :: Holds(e', n) == Holds(e, n)
  {
    hide Wrap32;
  }

  function TookAck(e: End, sn: u32): End {
    e.(k := ParseAck(e.k, sn))
  }

  lemma TookAckOwn(e: End, n: nat)
    requires Own(e) && e.una - n < HALF32 && n < e.nxt
    ensures var e' := TookAck(e, Wrap32(n));
            Own(e') && forall i :: 0 <= i < |e'.k.sndBuf| && e'.k.sndBuf[i].acked ==>
                                     e.k.sndBuf[i].acked || e.una + i == n
  {
    hide Wrap32, Diff32, Holds;
    var e' := TookAck(e, Wrap32(n));
    ParseAckKeeps(e.k, Wrap32(n));
    UnaCountsOf(e, e.una);
    SameHolds(e, e');
    DiffOfWraps(n, e.una);
    if n >= e.una {
      MarkAt(e.k.sndBuf, e.una, n);
    }
  }

  // ---- Data -----------------------------------------------------------------------------------

  function Inserted(e: End, sn: u32, fragment: Fragment): End {
    if sn in e.k.rcvBuf then e else e.(k := e.k.(rcvBuf := e.k.rcvBuf[sn := fragment]))
  }

  lemma InsertMatches(e: End, numbered: seq<Fragment>, n: nat, fragment: Fragment)
    requires Receiving(e) && Matches(e, numbered)
    requires 0 <= n - e.rcv < e.k.rcvWnd && n < |numbered| && fragment == numbered[n]
    ensures var e' := Inserted(e, Wrap32(n), fragment);
            Receiving(e') && Matches(e', numbered) && HoldsMore(e, e') && Holds(e', n)
  {
    hide Wrap32;
    NumberOfWrap(e, n);
  }

  /** parse_data with its history. */
  function TookData(e: End, sn: u32, fragment: Fragment): End {
    if Diff32(sn, Wrap32(e.k.rcvNxt + e.k.rcvWnd)) >= 0 || Diff32(sn, e.k.rcvNxt) < 0 then e
    else Refilled(Inserted(e, sn, fragment))
  }

  /** The PUSH branch of input with its history. */
  function TookPush(e: End, seg: Segment, n: nat): End {
    if Diff32(seg.sn, Wrap32(e.k.rcvNxt + e.k.rcvWnd)) >= 0 then e else
    var e1 := e.(k := e.k.(acks := e.k.acks + [AckItem(seg.sn, seg.ts)]), ackNums := e.ackNums + [n]);
    if Diff32(seg.sn, e.k.rcvNxt) >= 0 then TookData(e1, seg.sn, seg.fragment) else e1
  }

  lemma TookDataOwn(e: End, numbered: seq<Fragment>, n: nat, fragment: Fragment)
    requires Receiving(e) && Matches(e, numbered)
    requires -HALF32 <= n - e.rcv < HALF32 && n < |numbered| && fragment == numbered[n]
    ensures var e' := TookData(e, Wrap32(n), fragment);
            && e'.k == ParseData(e.k, Wrap32(n), fragment)
            && e' == e.(k := e'.k, rcv := e'.rcv, delivered := e'.delivered)
            && Receiving(e') && Matches(e', numbered) && HoldsMore(e, e')
            && (Diff32(Wrap32(n), Wrap32(e.k.rcvNxt + e.k.rcvWnd)) < 0 && n >= e.rcv ==> Holds(e', n))
            && KeptQueue(e, e')
  {
    hide Wrap32, Diff32, Refilled, Refill, Matches;
    DiffOfWraps(n, e.rcv);
    WindowTest(Wrap32(n), e.k.rcvNxt, e.k.rcvWnd);
    if n >= e.rcv { NumberOfWrap(e, n); }
    if Wrap32(Wrap32(n) - e.k.rcvNxt) < e.k.rcvWnd {
      InsertMatches(e, numbered, n, fragment);
      RefillHistory(Inserted(e, Wrap32(n), fragment), numbered);
    }
  }

  /** The queue only grows, by what is newly delivered. */
  predicate KeptQueue(e: End, e': End) {
    && e.k.rcvQueue <= e'.k.rcvQueue
    && e'.delivered == e.delivered + e'.k.rcvQueue[|e.k.rcvQueue|..]
  }

  lemma TookPushOwn(e: End, numbered: seq<Fragment>, seg: Segment, n: nat)
    requires Own(e) && Matches(e, numbered) && seg.cmd == Push && seg.sn == Wrap32(n)
    requires -HALF32 <= n - e.rcv < HALF32 && n < |numbered| && seg.fragment == numbered[n]
    ensures var e' := TookPush(e, seg, n);
            && Own(e') && Matches(e', numbered) && HoldsMore(e, e') && KeptQueue(e, e')
            && e' == e.(k := e'.k, rcv := e'.rcv, delivered := e'.delivered, ackNums := e'.ackNums)
            && e'.k.sndBuf == e.k.sndBuf
  {
    hide Wrap32, Diff32, TookData, ParseData, Matches, Windows;
    if Diff32(seg.sn, Wrap32(e.k.rcvNxt + e.k.rcvWnd)) < 0 {
      var e1 := e.(k := e.k.(acks := e.k.acks + [AckItem(seg.sn, seg.ts)]), ackNums := e.ackNums + [n]);
      DiffOfWraps(n, e.rcv);
      SameHolds(e, e1);
      assert Receiving(e) && Receiving(e1) by { OwnReceives(e); }
      assert Matches(e1, numbered) by { SameMatches(e, e1, numbered); }
      TookDataOwn(e1, numbered, n, seg.fragment);
      assert Windows(e1.k) by { AcksApart(e.k, e1.k.acks); }
      ParseDataKeeps(e1.k, seg.sn, seg.fragment);
      var e' := TookPush(e, seg, n);
      ParseDataSends(e1.k, seg.sn, seg.fragment);
      assert Holds(e', n);
      assert forall i :: 0 <= i < |e.ackNums| ==> e'.k.acks[i] == e.k.acks[i] && e'.ackNums[i] == e.ackNums[i];
    }
  }

  lemma OwnReceives(e: End)
    requires Own(e)
    ensures Receiving(e)
  {
    hide Wrap32;
  }

  lemma SameMatches(e: End, e': End, numbered: seq<Fragment>)
    requires e'.rcv == e.rcv && e'.delivered == e.delivered && e'.k.rcvBuf == e.k.rcvBuf && e'.k.rcvNxt == e.k.rcvNxt
    ensures Matches(e', numbered) == Matches(e, numbered)
  {
    hide Wrap32;
  }

  lemma AcksApart(k: Kcp, acks: seq<AckItem>)
    ensures Windows(k.(acks := acks)) == Windows(k)
  {
    hide Wrap32;
  }

  lemma ParseDataSends(k: Kcp, sn: u32, fragment: Fragment)
    requires Windowed(k)
    ensures var k' := ParseData(k, sn, fragment);
            k' == k.(rcvBuf := k'.rcvBuf, rcvNxt := k'.rcvNxt, rcvQueue := k'.rcvQueue)
  {
    hide Wrap32, Diff32;
    WindowTest(sn, k.rcvNxt, k.rcvWnd);
    if Wrap32(sn - k.rcvNxt) < k.rcvWnd {
      RefillKeeps(if sn in k.rcvBuf then k else k.(rcvBuf := k.rcvBuf[sn := fragment]));
    }
  }

  // ---- Flush ----------------------------------------------------------------------------------

  function NumberedOne(e: End): End
    requires e.k.sndQueue != []
  {
    e.(k := e.k.(sndQueue := e.k.sndQueue[1..],
                 sndBuf := e.k.sndBuf + [Outgoing(e.k.sndNxt, e.k.sndQueue[0], false)],
                 sndNxt := Wrap32(e.k.sndNxt + 1)),
       nxt := e.nxt + 1, numbered := e.numbered + [e.k.sndQueue[0]])
  }

  /** FillWindow with its history: each move gives a fragment the next number. */
  function Filled(e: End, cwnd: nat): End
    decreases |e.k.sndQueue|
  {
    if Diff32(e.k.sndNxt, Wrap32(e.k.sndUna + cwnd)) >= 0 || e.k.sndQueue == [] then e
    else Filled(NumberedOne(e), cwnd)
  }

  /** e' numbers more of its queue: nothing numbered changes, and nothing new is acknowledged. */
  predicate NumbersMore(e: End, e': End) {
    && e' == e.(k := e'.k, nxt := e'.nxt, numbered := e'.numbered)
    && e'.k == e.k.(sndQueue := e'.k.sndQueue, sndBuf := e'.k.sndBuf, sndNxt := e'.k.sndNxt)
    && e.numbered <= e'.numbered && e.k.sndBuf <= e'.k.sndBuf
    && e'.numbered + e'.k.sndQueue == e.numbered + e.k.sndQueue
    && (forall i :: |e.k.sndBuf| <= i < |e'.k.sndBuf| ==> !e'.k.sndBuf[i].acked)
  }

  lemma NumberOneOwn(e: End)
    requires Own(e) && e.k.sndQueue != [] && |e.k.sndBuf| < MAX_WINDOW
    ensures Own(NumberedOne(e)) && NumbersMore(e, NumberedOne(e))
  {
    hide Wrap32, Holds;
    var e' := NumberedOne(e);
    AddToWrap(e.nxt, 1);
    NextNumber(e.k.sndUna, e.k.sndNxt);
    SameHolds(e, e');
    assert e'.numbered + e'.k.sndQueue == e.numbered + e.k.sndQueue;
  }

  lemma {:induction false} FilledOwn(e: End, cwnd: nat)
    requires Own(e) && cwnd <= MAX_WINDOW
    ensures Filled(e, cwnd).k == FillWindow(e.k, cwnd)
    ensures Own(Filled(e, cwnd)) && NumbersMore(e, Filled(e, cwnd))
    decreases |e.k.sndQueue|
  {
    hide Wrap32, Diff32, Own;
    assert Wrap32(e.k.sndNxt - e.k.sndUna) == |e.k.sndBuf| && |e.k.sndBuf| <= MAX_WINDOW by { OwnSends(e); }
    WindowOpen(e.k.sndUna, e.k.sndNxt, cwnd);
    if Diff32(e.k.sndNxt, Wrap32(e.k.sndUna + cwnd)) < 0 && e.k.sndQueue != [] {
      NumberOneOwn(e);
      FilledOwn(NumberedOne(e), cwnd);
    }
  }

  lemma OwnSends(e: End)
    requires Own(e)
    ensures Wrap32(e.k.sndNxt - e.k.sndUna) == |e.k.sndBuf| && |e.k.sndBuf| <= MAX_WINDOW
    ensures forall i :: 0 <= i < |e.k.sndBuf| ==> e.k.sndBuf[i].sn == Wrap32(e.una + i)
  {
    hide Wrap32, Holds;
    forall i | 0 <= i < |e.k.sndBuf| ensures e.k.sndBuf[i].sn == Wrap32(e.una + i) {
      AddToWrap(e.una, i);
    }
  }

  /** What e says in a segment is so. */
  predicate Says(e: End, t: Tagged) {
    && t.seg.una == Wrap32(t.u) && t.u <= e.rcv
    && (t.seg.cmd == Push ==> t.seg.sn == Wrap32(t.n) && t.n < |e.numbered| && t.seg.fragment == e.numbered[t.n])
    && (t.seg.cmd == Ack ==> t.seg.sn == Wrap32(t.n) && Holds(e, t.n))
  }

  predicate AllSay(e: End, ts: seq<Tagged>) {
    forall i :: 0 <= i < |ts| ==> Says(e, ts[i])
  }

  /** The segments of ts are exactly those of sent. */
  predicate TagsOf(ts: seq<Tagged>, sent: seq<Segment>) {
    |ts| == |sent| && forall i :: 0 <= i < |ts| ==> ts[i].seg == sent[i]
  }

  function AckTags(e: End, acks: seq<AckItem>, nums: seq<nat>): seq<Tagged>
    requires |nums| == |acks|
  {
    if acks == [] then [] else
    (if Diff32(acks[0].sn, e.k.rcvNxt) >= 0 || |acks| == 1
     then [Tagged(Segment(Ack, WndUnused(e.k), acks[0].ts, acks[0].sn, e.k.rcvNxt, Fragment(0, [])), nums[0], e.rcv)]
     else [])
    + AckTags(e, acks[1..], nums[1..])
  }

  lemma {:induction false} AckTagsSay(e: End, acks: seq<AckItem>, nums: seq<nat>)
    requires |nums| == |acks| && e.k.rcvNxt == Wrap32(e.rcv)
    requires forall i :: 0 <= i < |acks| ==> acks[i].sn == Wrap32(nums[i]) && Holds(e, nums[i])
    ensures AllSay(e, AckTags(e, acks, nums)) && TagsOf(AckTags(e, acks, nums), AckSegments(e.k, acks))
  {
    hide Wrap32, Diff32, Holds;
    if acks != [] {
      AckTagsSay(e, acks[1..], nums[1..]);
    }
  }

  function DataTags(e: End, buf: seq<Outgoing>, first: nat, due: map<u32, u32>): seq<Tagged> {
    if buf == [] then [] else
    (if !buf[0].acked && buf[0].sn in due
     then [Tagged(Segment(Push, WndUnused(e.k), due[buf[0].sn], buf[0].sn, e.k.rcvNxt, buf[0].fragment), first, e.rcv)]
       else [])
    + DataTags(e, buf[1..], first + 1, due)
  }

  lemma {:induction false} DataTagsSay(e: End, buf: seq<Outgoing>, first: nat, due: map<u32, u32>)
    requires e.k.rcvNxt == Wrap32(e.rcv) && first + |buf| <= |e.numbered|
    requires forall i :: 0 <= i < |buf| ==> buf[i].sn == Wrap32(first + i)
    requires forall i :: 0 <= i < |buf| && !buf[i].acked ==> buf[i].fragment == e.numbered[first + i]
    ensures AllSay(e, DataTags(e, buf, first, due))
    ensures TagsOf(DataTags(e, buf, first, due), DataSegments(e.k, buf, due))
    decreases |buf|
  {
    hide Wrap32;
    if buf != [] {
      DataTagsSay(e, buf[1..], first + 1, due);
    }
  }

  datatype FlushedEnd = FlushedEnd(e: End, sent: seq<Tagged>)

  /** flush with its history. */
  function FlushEnd(e: End, timing: Timing): FlushedEnd
    requires |e.ackNums| == |e.k.acks|
  {
    var acks := AckTags(e, e.k.acks, e.ackNums);
    var e1 := e.(k := e.k.(acks := []), ackNums := []);
    if timing.ackOnly then FlushedEnd(e1, acks) else
    var last := if e.k.acks == [] then AckItem(0, 0) else e.k.acks[|e.k.acks| - 1];
    var ask := Tagged(Segment(Wask, WndUnused(e.k), last.ts, last.sn, e.k.rcvNxt, Fragment(0, [])), 0, e.rcv);
    var tell := Tagged(Segment(Wins, WndUnused(e.k), last.ts, last.sn, e.k.rcvNxt, Fragment(0, [])), 0, e.rcv);
    var e2 := Filled(e1.(k := e1.k.(tell := false)), Min(timing.congestion, Min(e.k.sndWnd, e.k.rmtWnd)));
    FlushedEnd(e2, acks + Maybe(timing.probe, ask) + Maybe(e.k.tell, tell)
                   + DataTags(e2, e2.k.sndBuf, e2.una, timing.due))
  }

  predicate FlushGood(e: End, timing: Timing, f: FlushedEnd) {
    && f.e.k == Flush(e.k, timing).k && TagsOf(f.sent, Flush(e.k, timing).sent)
    && Own(f.e) && AllSay(f.e, f.sent)
    && NumbersMore(e, f.e.(k := f.e.k.(acks := e.k.acks, tell := e.k.tell), ackNums := e.ackNums))
  }

  lemma FlushEndOwn(e: End, timing: Timing)
    requires Own(e)
    ensures FlushGood(e, timing, FlushEnd(e, timing))
  {
    if timing.ackOnly { AckFlushOwn(e, timing); } else { FullFlushOwn(e, timing); }
  }

  /** Everything pending is acknowledged: the list starts afresh. */
  lemma AcksGone(e: End, tell: bool)
    requires Own(e)
    ensures Own(e.(k := e.k.(acks := [], tell := tell), ackNums := []))
  {
    hide Wrap32, Holds, Windows;
    QuietWindows(e.k, e.k.(acks := [], tell := tell));
  }

  lemma AckFlushOwn(e: End, timing: Timing)
    requires Own(e) && timing.ackOnly
    ensures FlushGood(e, timing, FlushEnd(e, timing))
  {
    hide Wrap32, Diff32, AckTags, AckSegments, Holds, Windows;
    AckTagsSay(e, e.k.acks, e.ackNums);
    AcksGone(e, e.k.tell);
    SaysMore(e, e.(k := e.k.(acks := []), ackNums := []), AckTags(e, e.k.acks, e.ackNums));
  }

  /** What was true stays true when the endpoint numbers more and holds as much. */
  lemma SaysMore(e: End, e': End, ts: seq<Tagged>)
    requires AllSay(e, ts) && e.numbered <= e'.numbered
    requires e'.rcv == e.rcv && e'.k.rcvWnd == e.k.rcvWnd && e'.k.rcvBuf == e.k.rcvBuf
    ensures AllSay(e', ts)
  {
    hide Wrap32, Holds;
    SameHolds(e, e');
    forall i | 0 <= i < |ts| ensures Says(e', ts[i]) {
      assert Says(e, ts[i]);
    }
  }

  lemma JoinTags(e: End, a: seq<Tagged>, b: seq<Tagged>, sa: seq<Segment>, sb: seq<Segment>)
    requires AllSay(e, a) && AllSay(e, b) && TagsOf(a, sa) && TagsOf(b, sb)
    ensures AllSay(e, a + b) && TagsOf(a + b, sa + sb)
  {
    hide Says;
  }

  function Maybe<T>(b: bool, x: T): seq<T> {
    if b then [x] else []
  }

  lemma FullFlushOwn(e: End, timing: Timing)
    requires Own(e) && !timing.ackOnly
    ensures FlushGood(e, timing, FlushEnd(e, timing))
  {
    hide Wrap32, Diff32, Filled, FillWindow, AckTags, AckSegments, DataTags, DataSegments, Holds, Windows, WndUnused,
         Own, Min;
    assert |e.ackNums| == |e.k.acks| && e.k.rcvNxt == Wrap32(e.rcv) by { OwnBasics(e); }
    var e1 := e.(k := e.k.(acks := [], tell := false), ackNums := []);
    AcksGone(e, false);
    var cwnd := Min(timing.congestion, Min(e.k.sndWnd, e.k.rmtWnd));
    assert 0 <= cwnd <= MAX_WINDOW by { MinWindow(timing.congestion, e.k.sndWnd, e.k.rmtWnd); }
    FilledOwn(e1, cwnd);
    var e2 := Filled(e1, cwnd);
    var last := if e.k.acks == [] then AckItem(0, 0) else e.k.acks[|e.k.acks| - 1];
    var ask := Tagged(Segment(Wask, WndUnused(e.k), last.ts, last.sn, e.k.rcvNxt, Fragment(0, [])), 0, e.rcv);
    var tell := Tagged(Segment(Wins, WndUnused(e.k), last.ts, last.sn, e.k.rcvNxt, Fragment(0, [])), 0, e.rcv);
    OwnAcks(e);
    AckTagsSay(e, e.k.acks, e.ackNums);
    SaysMore(e, e2, AckTags(e, e.k.acks, e.ackNums));
    JoinTags(e2, AckTags(e, e.k.acks, e.ackNums), Maybe(timing.probe, ask), AckSegments(e.k, e.k.acks),
             Maybe(timing.probe, ask.seg));
    JoinTags(e2, AckTags(e, e.k.acks, e.ackNums) + Maybe(timing.probe, ask), Maybe(e.k.tell, tell),
             AckSegments(e.k, e.k.acks) + Maybe(timing.probe, ask.seg), Maybe(e.k.tell, tell.seg));
    DataFlush(e2, timing);
    JoinTags(e2, AckTags(e, e.k.acks, e.ackNums) + Maybe(timing.probe, ask) + Maybe(e.k.tell, tell),
             DataTags(e2, e2.k.sndBuf, e2.una, timing.due),
             AckSegments(e.k, e.k.acks) + Maybe(timing.probe, ask.seg) + Maybe(e.k.tell, tell.seg),
             DataSegments(e2.k, e2.k.sndBuf, timing.due));
  }

  lemma OwnBasics(e: End)
    requires Own(e)
    ensures |e.ackNums| == |e.k.acks| && e.k.rcvNxt == Wrap32(e.rcv)
  {
  }

  lemma OwnAcks(e: End)
    requires Own(e)
    ensures |e.ackNums| == |e.k.acks|
    ensures forall i :: 0 <= i < |e.k.acks| ==> e.k.acks[i].sn == Wrap32(e.ackNums[i]) && Holds(e, e.ackNums[i])
  {
    hide Holds, Wrap32;
  }

  lemma MinWindow(a: nat, b: nat, c: u16)
    ensures 0 <= Min(a, Min(b, c)) <= MAX_WINDOW
  {
  }

  lemma DataFlush(e: End, timing: Timing)
    requires Own(e)
    ensures AllSay(e, DataTags(e, e.k.sndBuf, e.una, timing.due))
    ensures TagsOf(DataTags(e, e.k.sndBuf, e.una, timing.due), DataSegments(e.k, e.k.sndBuf, timing.due))
  {
    hide Wrap32, Holds;
    OwnSends(e);
    DataTagsSay(e, e.k.sndBuf, e.una, timing.due);
  }

  lemma QuietWindows(k: Kcp, k': Kcp)
    requires k' == k.(acks := k'.acks, tell := k'.tell)
    ensures Windows(k') == Windows(k)
  {
    hide Wrap32;
  }
}
