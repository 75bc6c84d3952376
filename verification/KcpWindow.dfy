/** What every call keeps true of one KCP endpoint's two windows, whatever segments arrive. */
module KcpWindow {
  import opened Words
  import opened Kcp

  /** snd_buf is exactly the run of numbers from sndUna up to sndNxt. */
  predicate Consecutive(buf: seq<Outgoing>, una: u32) {
    forall i :: 0 <= i < |buf| ==> buf[i].sn == Wrap32(una + i)
  }

  predicate SendWindow(k: Kcp) {
    && |k.sndBuf| <= MAX_WINDOW
    && Wrap32(k.sndNxt - k.sndUna) == |k.sndBuf|
    && Consecutive(k.sndBuf, k.sndUna)
  }

  /** Out-of-order numbers lie in the receive window, and nothing that could be delivered is held back. */
  predicate ReceiveWindow(k: Kcp) {
    && k.rcvWnd <= MAX_WINDOW
    && (forall sn :: sn in k.rcvBuf ==> Wrap32(sn - k.rcvNxt) < k.rcvWnd)
    && (k.rcvNxt in k.rcvBuf ==> |k.rcvQueue| >= k.rcvWnd)
  }

  predicate Windows(k: Kcp) {
    k.mss > 0 && SendWindow(k) && ReceiveWindow(k)
  }

  // ---- The send window ------------------------------------------------------------------------

  lemma NextNumber(una: u32, nxt: u32)
    requires Wrap32(nxt - una) <= MAX_WINDOW
    ensures nxt == Wrap32(una + Wrap32(nxt - una))
    ensures Wrap32(Wrap32(nxt + 1) - una) == Wrap32(nxt - una) + 1
  {
    hide Wrap32;
    WrapNear(nxt - una);
    WrapNear(nxt);
    WrapNear(Wrap32(nxt - una) + 1);
    AddToWrap(nxt - una, 1);
    SubtractWraps(nxt + 1, una);
    WrapNear(una);
    if nxt < una {
      WrapUnique(una + Wrap32(nxt - una), 1, nxt);
    }
  }

  /** The window test of flush is a comparison of sizes. */
  lemma WindowOpen(una: u32, nxt: u32, cwnd: nat)
    requires Wrap32(nxt - una) <= MAX_WINDOW && cwnd <= MAX_WINDOW
    ensures Diff32(nxt, Wrap32(una + cwnd)) < 0 <==> Wrap32(nxt - una) < cwnd
  {
    hide Wrap32, Diff32;
    NextNumber(una, nxt);
    DiffOfWraps(una + Wrap32(nxt - una), una + cwnd);
  }

  lemma {:induction false} FillWindowKeeps(k: Kcp, cwnd: nat)
    requires Windows(k) && cwnd <= MAX_WINDOW
    ensures Windows(FillWindow(k, cwnd))
    decreases |k.sndQueue|
  {
    hide Wrap32, Diff32;
    WindowOpen(k.sndUna, k.sndNxt, cwnd);
    if Diff32(k.sndNxt, Wrap32(k.sndUna + cwnd)) < 0 && k.sndQueue != [] {
      NextNumber(k.sndUna, k.sndNxt);
      FillWindowKeeps(k.(sndQueue := k.sndQueue[1..],
                         sndBuf := k.sndBuf + [Outgoing(k.sndNxt, k.sndQueue[0], false)],
                         sndNxt := Wrap32(k.sndNxt + 1)), cwnd);
    }
  }

  /** Dropping a prefix of the run leaves a run that starts at the first number kept. */
  lemma DropKeeps(k: Kcp, n: nat)
    requires SendWindow(k) && n <= |k.sndBuf|
    ensures var buf := k.sndBuf[n..];
            SendWindow(k.(sndBuf := buf, sndUna := if buf != [] then buf[0].sn else k.sndNxt))
    ensures n < |k.sndBuf| ==> k.sndBuf[n].sn == Wrap32(k.sndUna + n)
  {
    hide Wrap32;
    NextNumber(k.sndUna, k.sndNxt);
    var m := |k.sndBuf|;
    var una' := if n < m then k.sndBuf[n].sn else k.sndNxt;
    assert una' == Wrap32(k.sndUna + n);
    SubtractWraps(k.sndUna + m, k.sndUna + n);
    WrapNear(m - n);
    forall i | 0 <= i < m - n ensures k.sndBuf[n..][i].sn == Wrap32(una' + i) {
      AddToWrap(k.sndUna + n, i);
    }
  }

  lemma {:induction false} MarkKeepsNumbers(buf: seq<Outgoing>, sn: u32)
    ensures forall i :: 0 <= i < |buf| ==> MarkAcked(buf, sn)[i].sn == buf[i].sn
  {
    hide Diff32;
    if buf != [] && buf[0].sn != sn {
      MarkKeepsNumbers(buf[1..], sn);
    }
  }

  // ---- The receive window ---------------------------------------------------------------------

  /** A number in the window other than rcvNxt stays in the window when rcvNxt advances. */
  lemma AdvanceInWindow(sn: u32, rcvNxt: u32)
    requires sn != rcvNxt
    ensures Wrap32(sn - Wrap32(rcvNxt + 1)) == Wrap32(sn - rcvNxt) - 1
  {
    hide Wrap32;
    WrapNear(sn - rcvNxt);
    SubtractWraps(sn, rcvNxt + 1);
    WrapNear(sn);
    WrapNear(sn - rcvNxt - 1);
    assert sn - (rcvNxt + 1) == sn - rcvNxt - 1;
    assert Wrap32(sn - rcvNxt - 1) == Wrap32(sn - rcvNxt) - 1;
  }

  /** Everything of ReceiveWindow that holds between the moves of a refill. */
  predicate Windowed(k: Kcp) {
    k.rcvWnd <= MAX_WINDOW && forall sn :: sn in k.rcvBuf ==> Wrap32(sn - k.rcvNxt) < k.rcvWnd
  }

  lemma {:induction false} RefillKeeps(k: Kcp)
    requires Windowed(k)
    ensures ReceiveWindow(Refill(k))
    ensures Refill(k) == k.(rcvQueue := Refill(k).rcvQueue, rcvBuf := Refill(k).rcvBuf, rcvNxt := Refill(k).rcvNxt)
    decreases |k.rcvBuf|
  {
    hide Wrap32;
    if k.rcvNxt in k.rcvBuf && |k.rcvQueue| < k.rcvWnd {
      var k' := k.(rcvQueue := k.rcvQueue + [k.rcvBuf[k.rcvNxt]],
                   rcvBuf := k.rcvBuf - {k.rcvNxt}, rcvNxt := Wrap32(k.rcvNxt + 1));
      forall sn | sn in k'.rcvBuf ensures Wrap32(sn - k'.rcvNxt) < k'.rcvWnd {
        AdvanceInWindow(sn, k.rcvNxt);
      }
      RefillKeeps(k');
    }
  }

  /** The two signed comparisons of parse_data accept exactly the numbers of the receive window. */
  lemma WindowTest(sn: u32, rcvNxt: u32, wnd: nat)
    requires wnd <= MAX_WINDOW
    ensures (Diff32(sn, Wrap32(rcvNxt + wnd)) < 0 && Diff32(sn, rcvNxt) >= 0) <==> Wrap32(sn - rcvNxt) < wnd
  {
    hide Wrap32;
    WrapNear(sn - rcvNxt);
    SubtractWraps(sn, rcvNxt + wnd);
    WrapNear(sn);
    var d := sn - rcvNxt;
    if d - wnd >= -0x1_0000_0000 {
      WrapNear(d - wnd);
    } else {
      WrapUnique(d - wnd, -2, d - wnd + 0x2_0000_0000);
    }
    assert sn - (rcvNxt + wnd) == d - wnd;
  }

  lemma ParseDataKeeps(k: Kcp, sn: u32, fragment: Fragment)
    requires Windows(k)
    ensures Windows(ParseData(k, sn, fragment))
  {
    hide Wrap32, Diff32, Consecutive;
    WindowTest(sn, k.rcvNxt, k.rcvWnd);
    if Wrap32(sn - k.rcvNxt) < k.rcvWnd {
      RefillKeeps(if sn in k.rcvBuf then k else k.(rcvBuf := k.rcvBuf[sn := fragment]));
    }
  }

  // ---- Every call -----------------------------------------------------------------------------

  lemma ParseUnaKeeps(k: Kcp, una: u32)
    requires Windows(k)
    ensures Windows(ParseUna(k, una))
  {
    hide Wrap32;
    DropKeeps(k, UnaCount(k.sndBuf, una));
  }

  lemma ParseAckKeeps(k: Kcp, sn: u32)
    requires Windows(k)
    ensures Windows(ParseAck(k, sn))
  {
    hide Wrap32, Diff32;
    MarkKeepsNumbers(k.sndBuf, sn);
  }

  lemma InputKeeps(k: Kcp, seg: Segment, regular: bool)
    requires Windows(k)
    ensures Windows(Input(k, seg, regular))
  {
    hide Wrap32, Diff32, Consecutive, ParseUna, ParseAck, ParseData;
    var k0 := if regular then k.(rmtWnd := seg.wnd) else k;
    ParseUnaKeeps(k0, seg.una);
    var k1 := ParseUna(k0, seg.una);
    ParseAckKeeps(k1, seg.sn);
    ParseDataKeeps(k1.(acks := k1.acks + [AckItem(seg.sn, seg.ts)]), seg.sn, seg.fragment);
  }

  lemma SendKeeps(k: Kcp, bytes: seq<byte>)
    requires Windows(k)
    ensures Windows(Send(k, bytes))
  {
    hide Wrap32, Consecutive, Fragments;
  }

  lemma RecvKeeps(k: Kcp, room: nat)
    requires Windows(k)
    ensures Windows(Recv(k, room))
  {
    hide Wrap32, Consecutive, Refill, RecvResult;
    RefillKeeps(k.(rcvQueue := k.rcvQueue[FirstMessage(k.rcvQueue)..]));
  }

  lemma FlushKeeps(k: Kcp, timing: Timing)
    requires Windows(k)
    ensures Windows(Flush(k, timing).k)
  {
    hide Wrap32, Consecutive, FillWindow;
    FillWindowKeeps(k.(acks := [], tell := false), Min(timing.congestion, Min(k.sndWnd, k.rmtWnd)));
  }
}
