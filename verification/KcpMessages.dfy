/** Messages and bytes: what Send cuts up, Recv puts together again. */
module KcpMessages {
  import opened Words
  import opened Kcp

  function Concat(messages: seq<seq<byte>>): seq<byte> {
    if messages == [] then [] else messages[0] + Concat(messages[1..])
  }

  /** A message Send takes in message mode. */
  predicate Sendable(message: seq<byte>, mss: nat) {
    message != [] && |message| <= 255 * mss
  }

  predicate AllSendable(messages: seq<seq<byte>>, mss: nat) {
    forall i :: 0 <= i < |messages| ==> Sendable(messages[i], mss)
  }

  /** The fragments of a sequence of messages, in order. */
  function Cut(messages: seq<seq<byte>>, mss: nat): seq<Fragment>
    requires mss > 0 && AllSendable(messages, mss)
  {
    if messages == [] then [] else Fragments(messages[0], mss, false) + Cut(messages[1..], mss)
  }

  // ---- Joining and concatenating --------------------------------------------------------------

  lemma {:induction false} JoinedAppend(a: seq<Fragment>, b: seq<Fragment>)
    ensures Joined(a + b) == Joined(a) + Joined(b)
  {
    if a == [] {
      assert a + b == b;
    } else {
      assert (a + b)[1..] == a[1..] + b;
      JoinedAppend(a[1..], b);
    }
  }

  lemma {:induction false} ConcatAppend(a: seq<seq<byte>>, b: seq<seq<byte>>)
    ensures Concat(a + b) == Concat(a) + Concat(b)
  {
    if a == [] {
      assert a + b == b;
    } else {
      assert (a + b)[1..] == a[1..] + b;
      ConcatAppend(a[1..], b);
    }
  }

  lemma ConcatOne(message: seq<byte>)
    ensures Concat([message]) == message
  {
    assert Concat([message][1..]) == [];
  }

  lemma {:induction false} CutAppend(a: seq<seq<byte>>, b: seq<seq<byte>>, mss: nat)
    requires mss > 0 && AllSendable(a, mss) && AllSendable(b, mss)
    ensures AllSendable(a + b, mss) && Cut(a + b, mss) == Cut(a, mss) + Cut(b, mss)
  {
    hide Fragments;
    if a == [] {
      assert a + b == b;
    } else {
      assert (a + b)[1..] == a[1..] + b;
      CutAppend(a[1..], b, mss);
    }
  }

  lemma CutOne(message: seq<byte>, mss: nat)
    requires mss > 0 && Sendable(message, mss)
    ensures Cut([message], mss) == Fragments(message, mss, false)
  {
    hide Fragments;
    assert Cut([message][1..], mss) == [];
  }

  // ---- Fragments ------------------------------------------------------------------------------

  /** The pieces join to the buffer, and none is longer than a segment may carry. */
  lemma {:induction false} FragmentsJoin(bytes: seq<byte>, mss: nat, stream: bool)
    requires mss > 0 && (stream || |bytes| <= 255 * mss)
    ensures Joined(Fragments(bytes, mss, stream)) == bytes
    ensures forall i :: 0 <= i < |Fragments(bytes, mss, stream)| ==> |Fragments(bytes, mss, stream)[i].data| <= mss
    decreases |bytes|
  {
    var fs := Fragments(bytes, mss, stream);
    if |bytes| <= mss {
      assert Joined(fs[1..]) == [];
    } else {
      FragmentsJoin(bytes[mss..], mss, stream);
      assert fs[1..] == Fragments(bytes[mss..], mss, stream);
      assert bytes[..mss] + bytes[mss..] == bytes;
    }
  }

  lemma OneLess(n: nat, mss: nat)
    requires mss > 0 && n > mss
    ensures (n - 1) / mss == (n - mss - 1) / mss + 1
  {
    assert n - 1 == (n - mss - 1) + mss;
    var q, r := (n - mss - 1) / mss, (n - mss - 1) % mss;
    assert n - mss - 1 == q * mss + r;
    assert n - 1 == (q + 1) * mss + r;
    ModUnique(n - 1, mss, q + 1, r);
  }

  /** In message mode the first frg says how many pieces follow, and only the last piece says none. */
  lemma {:induction false} FragmentsCount(bytes: seq<byte>, mss: nat)
    requires mss > 0 && Sendable(bytes, mss)
    ensures var fs := Fragments(bytes, mss, false);
            |fs| == (|bytes| - 1) / mss + 1 && |fs| <= 255 && fs[0].frg == |fs| - 1
    decreases |bytes|
  {
    if |bytes| > mss {
      OneLess(|bytes|, mss);
      FragmentsCount(bytes[mss..], mss);
      FrgFits(bytes, mss);
    } else {
      ModUnique(|bytes| - 1, mss, 0, |bytes| - 1);
    }
  }

  /** The first message ends where its fragments end, whatever follows. */
  lemma {:induction false} FirstMessageEnds(bytes: seq<byte>, mss: nat, more: seq<Fragment>)
    requires mss > 0 && Sendable(bytes, mss)
    ensures FirstMessage(Fragments(bytes, mss, false) + more) == |Fragments(bytes, mss, false)|
    decreases |bytes|
  {
    var fs := Fragments(bytes, mss, false);
    FragmentsCount(bytes, mss);
    if |bytes| > mss {
      FirstMessageEnds(bytes[mss..], mss, more);
      assert (fs + more)[1..] == Fragments(bytes[mss..], mss, false) + more;
      FrgFits(bytes, mss);
    } else {
      assert fs + more == [Fragment(0, bytes)] + more;
    }
  }

  /** Recv finds a message exactly when every fragment of the next one is queued, and then it is that message. */
  lemma QueueHolds(k: Kcp, rest: seq<seq<byte>>, mss: nat, room: nat)
    requires mss > 0 && AllSendable(rest, mss) && k.rcvQueue <= Cut(rest, mss)
    ensures RecvResult(k, room) ==
            if rest == [] || |k.rcvQueue| < |Fragments(rest[0], mss, false)| then NoData
            else if |rest[0]| > room then Short
            else Message(rest[0])
    ensures rest != [] && |k.rcvQueue| >= |Fragments(rest[0], mss, false)| ==>
              FirstMessage(k.rcvQueue) == |Fragments(rest[0], mss, false)|
              && k.rcvQueue[..FirstMessage(k.rcvQueue)] == Fragments(rest[0], mss, false)
  {
    hide Fragments, Joined, FirstMessage, Cut;
    var q := k.rcvQueue;
    if rest == [] {
      CutNone(rest, mss);
    } else {
      var fs := Fragments(rest[0], mss, false);
      CutHead(rest, mss);
      FragmentsCount(rest[0], mss);
      assert q != [] ==> q[0] == fs[0];
      if |q| >= |fs| {
        FirstMessageEnds(rest[0], mss, q[|fs|..]);
        assert q == fs + q[|fs|..];
        FragmentsJoin(rest[0], mss, false);
        JoinedSingle(q);
      }
    }
  }

  lemma CutNone(messages: seq<seq<byte>>, mss: nat)
    requires mss > 0 && messages == []
    ensures AllSendable(messages, mss) && Cut(messages, mss) == []
  {
  }

  lemma CutHead(messages: seq<seq<byte>>, mss: nat)
    requires mss > 0 && AllSendable(messages, mss) && messages != []
    ensures Cut(messages, mss) == Fragments(messages[0], mss, false) + Cut(messages[1..], mss)
  {
  }

  lemma JoinedSingle(q: seq<Fragment>)
    ensures q != [] && q[0].frg == 0 ==> FirstMessage(q) == 1 && Joined(q[..1]) == q[0].data
  {
    if q != [] {
      assert q[..1][1..] == [];
      assert Joined(q[..1]) == q[0].data + Joined([]);
    }
  }
}
