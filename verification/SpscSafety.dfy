/** Under every interleaving, what the consumer delivers is a prefix of what the producer published. */
module SpscSafety {
  import opened Words
  import opened SpscRing

  // ---- What lies in the ring ------------------------------------------------------------------

  ghost predicate Payload(buf: seq<byte>, at: nat, p: seq<byte>, n: nat)
    requires |buf| > 0 && n <= |p|
  {
    forall i :: 0 <= i < n ==> buf[Slot(at + HEADER + i, |buf|)] == p[i]
  }

  /** A whole record of packet p starts at cursor position at. */
  ghost predicate Record(buf: seq<byte>, at: nat, p: seq<byte>)
    requires |buf| > 0
  {
    && 1 <= |p| <= |buf| / 2 && |p| <= MAX_PACKET
    && at % 4 == 0 && Slot(at, |buf|) + 4 <= |buf|
    && HeaderAt(buf, Slot(at, |buf|)) == |p|
    && Payload(buf, at, p, |p|)
  }

  /** The packets lie one after another from cursor position at to cursor position end. */
  ghost predicate Laid(buf: seq<byte>, at: nat, packets: seq<seq<byte>>, end: nat)
    requires |buf| > 0
    decreases |packets|
  {
    if packets == [] then at == end
    else Record(buf, at, packets[0]) && Laid(buf, at + RecordSize(|packets[0]|), packets[1..], end)
  }

  /** buf and buf' agree on the slots of the cursor positions from lo up to hi. */
  ghost predicate Agree(buf: seq<byte>, buf': seq<byte>, lo: nat, hi: nat)
    requires |buf| > 0 && |buf'| == |buf|
  {
    forall x :: lo <= x < hi ==> buf'[Slot(x, |buf|)] == buf[Slot(x, |buf|)]
  }

  lemma {:induction false} LaidForward(buf: seq<byte>, at: nat, packets: seq<seq<byte>>, end: nat)
    requires |buf| > 0 && Laid(buf, at, packets, end)
    ensures packets == [] ==> at == end
    ensures packets != [] ==> at + RecordSize(|packets[0]|) <= end
    decreases |packets|
  {
    hide RecordSize;
    if packets != [] {
      LaidForward(buf, at + RecordSize(|packets[0]|), packets[1..], end);
    }
  }

  lemma HeaderKept(buf: seq<byte>, buf': seq<byte>, h: nat)
    requires |buf| > 0 && |buf'| == |buf| && Agree(buf, buf', h, h + 4) && Slot(h, |buf|) + 4 <= |buf|
    ensures HeaderAt(buf', Slot(h, |buf|)) == HeaderAt(buf, Slot(h, |buf|))
  {
    hide Slot, FromLE;
    var k := Slot(h, |buf|);
    forall y | k <= y < k + 4 ensures buf'[y] == buf[y] {
      SlotShift(h, y - k, |buf|);
      assert buf'[Slot(h + (y - k), |buf|)] == buf[Slot(h + (y - k), |buf|)];
    }
    assert buf'[k..k + 4] == buf[k..k + 4];
  }

  lemma RecordFrame(buf: seq<byte>, buf': seq<byte>, at: nat, p: seq<byte>)
    requires |buf| > 0 && |buf'| == |buf| && Record(buf, at, p)
    requires Agree(buf, buf', at, at + RecordSize(|p|))
    ensures Record(buf', at, p)
  {
    hide Slot, HeaderAt;
    RecordSizeFacts(|p|);
    HeaderKept(buf, buf', at);
    forall i | 0 <= i < |p| ensures buf'[Slot(at + HEADER + i, |buf|)] == p[i] {
      assert buf'[Slot(at + HEADER + i, |buf|)] == buf[Slot(at + HEADER + i, |buf|)];
    }
  }

  lemma {:induction false} LaidFrame(buf: seq<byte>, buf': seq<byte>, at: nat, packets: seq<seq<byte>>, end: nat)
    requires |buf| > 0 && |buf'| == |buf| && Laid(buf, at, packets, end) && Agree(buf, buf', at, end)
    ensures Laid(buf', at, packets, end)
    decreases |packets|
  {
    hide RecordSize, Record, Slot;
    if packets != [] {
      LaidForward(buf, at, packets, end);
      RecordSizeFacts(|packets[0]|);
      RecordFrame(buf, buf', at, packets[0]);
      LaidFrame(buf, buf', at + RecordSize(|packets[0]|), packets[1..], end);
    }
  }

  lemma {:induction false} LaidAppend(buf: seq<byte>, at: nat, packets: seq<seq<byte>>, end: nat, p: seq<byte>)
    requires |buf| > 0 && Laid(buf, at, packets, end) && Record(buf, end, p)
    ensures Laid(buf, at, packets + [p], end + RecordSize(|p|))
    decreases |packets|
  {
    hide RecordSize, Record, Slot;
    if packets != [] {
      LaidAppend(buf, at + RecordSize(|packets[0]|), packets[1..], end, p);
      assert (packets + [p])[1..] == packets[1..] + [p];
    }
  }

  // ---- The invariant --------------------------------------------------------------------------

  function Pending(past: History): seq<seq<byte>> {
    if |past.received| <= |past.sent| then past.sent[|past.received|..] else []
  }

  predicate Writable(s: State, data: seq<byte>) {
    1 <= |data| <= |s.buf| / 2 && |data| <= MAX_PACKET
  }

  predicate TailCached(s: State) {
    s.p.cachedTail == Wrap64(s.past.pt) && s.past.pt <= s.past.t && s.past.h <= s.past.pt + |s.buf|
  }

  /** There is room for the whole record, as the producer found out. */
  predicate Roomy(s: State, data: seq<byte>) {
    Writable(s, data) && s.past.h + RecordSize(|data|) <= s.past.pt + |s.buf|
  }

  ghost predicate ProducerInv(s: State)
    requires |s.buf| > 0
  {
    match s.p.pc
    case PDetached => false
    case PAttachTail => true
    case PAttachHead => TailCached(s)
    case PIdle => s.p.head == s.head && TailCached(s)
    case PReload(data) => s.p.head == s.head && TailCached(s) && Writable(s, data)
    case PLoad(data) => s.p.head == s.head && TailCached(s) && Writable(s, data)
    case PHeader(data) => s.p.head == s.head && TailCached(s) && Roomy(s, data)
    case PCopy(data, i) =>
      && s.p.head == s.head && TailCached(s) && Roomy(s, data) && i <= |data|
      && Slot(s.past.h, |s.buf|) + 4 <= |s.buf|
      && HeaderAt(s.buf, Slot(s.past.h, |s.buf|)) == |data|
      && Payload(s.buf, s.past.h, data, i)
  }

  predicate HeadCached(s: State) {
    s.c.cachedHead == Wrap64(s.past.ch) && s.past.t <= s.past.ch <= s.past.h && s.past.ch % 4 == 0
  }

  predicate ConsumerInv(s: State) {
    && s.c.outcome != Corrupt
    && match s.c.pc
       case CDetached => false
       case CAttachTail => true
       case CAttachHead => s.c.tail == s.tail
       case CIdle => s.c.tail == s.tail && HeadCached(s)
       case CLoad(_) => s.c.tail == s.tail && HeadCached(s)
       case CHeader(_, used) => s.c.tail == s.tail && HeadCached(s) && used == s.past.ch - s.past.t && used >= HEADER
       case CReload(_, length) =>
         s.c.tail == s.tail && HeadCached(s) && Pending(s.past) != [] && length == |Pending(s.past)[0]|
       case CCopy(length, out) =>
         && s.c.tail == s.tail && HeadCached(s) && Pending(s.past) != [] && length == |Pending(s.past)[0]|
         && out <= Pending(s.past)[0] && s.past.ch >= s.past.t + RecordSize(length)
  }

  predicate CursorInv(s: State) {
    && s.head == Wrap64(s.past.h) && s.tail == Wrap64(s.past.t)
    && s.past.t <= s.past.h <= s.past.t + |s.buf|
    && s.past.h % 4 == 0 && s.past.t % 4 == 0
  }

  ghost predicate Inv(s: State) {
    && GoodSize(|s.buf|) && |s.buf| >= 8
    && CursorInv(s)
    && s.past.received <= s.past.sent
    && Laid(s.buf, s.past.t, Pending(s.past), s.past.h)
    && ProducerInv(s) && ConsumerInv(s)
  }

  lemma StartInv(memory: seq<byte>)
    requires GoodSize(|memory|)
    ensures Inv(Start(memory)) && |Start(memory).buf| == |memory|
  {
    var m := SizeFacts(|memory|);
  }

  // ---- Steps of the producer ------------------------------------------------------------------

  /** Overwriting slots of positions at or above lo, less than a ring above t, leaves [t, lo) alone. */
  lemma WriteApart(buf: seq<byte>, buf': seq<byte>, t: nat, lo: nat, hi: nat)
    requires |buf| > 0 && |buf'| == |buf| && t <= lo <= hi <= t + |buf|
    requires forall k :: 0 <= k < |buf| && (forall y :: lo <= y < hi ==> Slot(y, |buf|) != k) ==> buf'[k] == buf[k]
    ensures Agree(buf, buf', t, lo)
  {
    hide Slot;
    forall x | t <= x < lo ensures buf'[Slot(x, |buf|)] == buf[Slot(x, |buf|)] {
      forall y | lo <= y < hi ensures Slot(y, |buf|) != Slot(x, |buf|) {
        SlotApart(x, y, |buf|);
      }
    }
  }

  /** The loads of WritePacket see how much is in use, and never too much. */
  lemma UsedByProducer(s: State)
    requires |s.buf| >= 8 && GoodSize(|s.buf|) && CursorInv(s)
    ensures Wrap64(s.head - s.tail) == s.past.h - s.past.t
    ensures TailCached(s) ==> Wrap64(s.head - s.p.cachedTail) == s.past.h - s.past.pt
  {
    hide Wrap64;
    var m := SizeFacts(|s.buf|);
    WordDifference(s.past.h, s.past.t);
    if TailCached(s) { WordDifference(s.past.h, s.past.pt); }
  }

  lemma BeginWriteInv(s: State, data: seq<byte>)
    requires Inv(s) && s.p.pc == PIdle
    ensures Inv(BeginWrite(s, data))
  {
    hide Wrap64, Slot, RecordSize, Laid, HeaderAt, GoodSize;
    UsedByProducer(s);
  }

  lemma LoadStepInv(s: State)
    requires Inv(s) && (s.p.pc.PAttachTail? || s.p.pc.PAttachHead? || s.p.pc.PReload? || s.p.pc.PLoad?)
    ensures Inv(StepProducer(s))
    ensures s.p.pc.PLoad? ==>
              (StepProducer(s).p.pc == PIdle <==> s.past.h + RecordSize(|s.p.pc.data|) > s.past.t + |s.buf|)
    ensures StepProducer(s).buf == s.buf
  {
    hide Wrap64, Slot, RecordSize, Laid, HeaderAt, GoodSize;
    UsedByProducer(s);
  }

  lemma HeaderWritten(buf: seq<byte>, t: nat, h: nat, b: seq<byte>)
    requires |buf| > 0 && |b| == 4 && Slot(h, |buf|) + 4 <= |buf| && t <= h && h + 4 <= t + |buf|
    ensures var k := Slot(h, |buf|);
            var buf' := buf[..k] + b + buf[k + 4..];
            Agree(buf, buf', t, h) && buf'[k..k + 4] == b
  {
    hide Slot;
    var k := Slot(h, |buf|);
    var buf' := buf[..k] + b + buf[k + 4..];
    forall x | t <= x < h ensures buf'[Slot(x, |buf|)] == buf[Slot(x, |buf|)] {
      var y := Slot(x, |buf|);
      if k <= y < k + 4 {
        SlotShift(h, y - k, |buf|);
        SlotApart(x, h + (y - k), |buf|);
      }
    }
  }

  /** The consumer's side does not look at the bytes. */
  lemma SameConsumer(s: State, s': State)
    requires s'.c == s.c && s'.tail == s.tail && s'.past == s.past
    ensures ConsumerInv(s) ==> ConsumerInv(s')
  {
    hide Wrap64, RecordSize;
  }

  lemma HeaderFits(s: State)
    requires GoodSize(|s.buf|) && |s.buf| > 0 && CursorInv(s)
    ensures Slot(s.head, |s.buf|) == Slot(s.past.h, |s.buf|) && Slot(s.past.h, |s.buf|) + 4 <= |s.buf|
  {
    hide Wrap64, Slot, GoodSize;
    var m := SizeFacts(|s.buf|);
    SlotOfWord(s.past.h, |s.buf|);
    SlotAligned(s.past.h, |s.buf|);
  }

  lemma HeaderStepInv(s: State)
    requires Inv(s) && s.p.pc.PHeader?
    ensures Inv(StepProducer(s))
    ensures Agree(s.buf, StepProducer(s).buf, s.past.t, s.past.h)
  {
    hide Wrap64, Slot, RecordSize, Laid, GoodSize, FromLE, ToLE, Pow256, ConsumerInv;
    var size, h, data := |s.buf|, s.past.h, s.p.pc.data;
    SameConsumer(s, StepProducer(s));
    HeaderFits(s);
    RecordSizeFacts(|data|);
    Pow256Values();
    LERoundTrip(|data|, 4);
    HeaderWritten(s.buf, s.past.t, h, ToLE(|data|, 4));
    var s' := StepProducer(s);
    LaidFrame(s.buf, s'.buf, s.past.t, Pending(s.past), h);
  }

  lemma CopyStepInv(s: State)
    requires Inv(s) && s.p.pc.PCopy? && s.p.pc.i < |s.p.pc.data|
    ensures Inv(StepProducer(s))
    ensures Agree(s.buf, StepProducer(s).buf, s.past.t, s.past.h)
  {
    hide Wrap64, Slot, RecordSize, Laid, GoodSize, HeaderAt, ConsumerInv;
    var size, h, data, i := |s.buf|, s.past.h, s.p.pc.data, s.p.pc.i;
    SameConsumer(s, StepProducer(s));
    HeaderFits(s);
    RecordSizeFacts(|data|);
    SlotShift(h, HEADER + i, size);
    var s' := StepProducer(s);
    WriteApart(s.buf, s'.buf, s.past.t, h + HEADER + i, h + HEADER + i + 1);
    LaidFrame(s.buf, s'.buf, s.past.t, Pending(s.past), h);
    HeaderKept(s.buf, s'.buf, h);
    assert Payload(s'.buf, h, data, i + 1) by {
      forall j | 0 <= j < i + 1 ensures s'.buf[Slot(h + HEADER + j, size)] == data[j] {
        if j < i { assert s'.buf[Slot(h + HEADER + j, size)] == s.buf[Slot(h + HEADER + j, size)]; }
      }
    }
  }

  lemma PublishInv(s: State)
    requires Inv(s) && s.p.pc.PCopy? && s.p.pc.i == |s.p.pc.data|
    ensures Inv(StepProducer(s))
    ensures Pending(StepProducer(s).past) == Pending(s.past) + [s.p.pc.data]
  {
    hide Wrap64, Slot, RecordSize, Laid, GoodSize, HeaderAt;
    var h, data := s.past.h, s.p.pc.data;
    WordSum(h, RecordSize(|data|));
    RecordSizeFacts(|data|);
    LaidAppend(s.buf, s.past.t, Pending(s.past), h, data);
    assert Pending(StepProducer(s).past) == Pending(s.past) + [data];
  }

  // ---- Steps of the consumer ------------------------------------------------------------------

  lemma UsedByConsumer(s: State)
    requires |s.buf| >= 8 && GoodSize(|s.buf|) && CursorInv(s)
    ensures Wrap64(s.head - s.tail) == s.past.h - s.past.t
    ensures HeadCached(s) ==> Wrap64(s.c.cachedHead - s.tail) == s.past.ch - s.past.t
  {
    hide Wrap64;
    var m := SizeFacts(|s.buf|);
    WordDifference(s.past.h, s.past.t);
    if HeadCached(s) { WordDifference(s.past.ch, s.past.t); }
  }

  lemma BeginReadInv(s: State, room: nat)
    requires Inv(s) && s.c.pc == CIdle
    ensures Inv(BeginRead(s, room))
  {
    hide Wrap64, Slot, RecordSize, Laid, HeaderAt, GoodSize, ProducerInv;
    UsedByConsumer(s);
    SameProducer(s, BeginRead(s, room));
  }

  /** The producer's side does not look at the consumer's. */
  lemma SameProducer(s: State, s': State)
    requires |s.buf| > 0 && s'.buf == s.buf && s'.p == s.p && s'.head == s.head
    requires s'.past.h == s.past.h && s'.past.pt == s.past.pt && s.past.t <= s'.past.t
    ensures ProducerInv(s) ==> ProducerInv(s')
  {
    hide Slot, Wrap64, RecordSize, HeaderAt;
  }

  /** The record at the published tail, when there is one. */
  lemma FirstRecord(s: State)
    requires Inv(s) && s.past.t < s.past.h
    ensures Pending(s.past) != [] && Record(s.buf, s.past.t, Pending(s.past)[0])
    ensures s.past.t + RecordSize(|Pending(s.past)[0]|) <= s.past.h
    ensures Slot(s.tail, |s.buf|) == Slot(s.past.t, |s.buf|)
  {
    hide Slot, RecordSize, HeaderAt, Wrap64, ProducerInv;
    LaidForward(s.buf, s.past.t, Pending(s.past), s.past.h);
    SlotOfWord(s.past.t, |s.buf|);
  }

  lemma ConsumerLoadInv(s: State)
    requires Inv(s) && (s.c.pc.CAttachTail? || s.c.pc.CAttachHead? || s.c.pc.CLoad? || s.c.pc.CReload?)
    ensures Inv(StepConsumer(s))
    ensures s.c.pc.CLoad? ==> (StepConsumer(s).c.pc == CIdle <==> s.past.h == s.past.t)
    ensures StepConsumer(s).buf == s.buf
  {
    hide Wrap64, Slot, RecordSize, Laid, HeaderAt, GoodSize, ProducerInv, Record;
    UsedByConsumer(s);
    SameProducer(s, StepConsumer(s));
    if s.c.pc.CReload? {
      FirstOfPending(s);
    }
  }

  lemma FirstOfPending(s: State)
    requires Inv(s) && Pending(s.past) != []
    ensures s.past.t + RecordSize(|Pending(s.past)[0]|) <= s.past.h
  {
    hide Slot, RecordSize, HeaderAt, Wrap64, ProducerInv, Record;
    LaidForward(s.buf, s.past.t, Pending(s.past), s.past.h);
  }

  lemma ConsumerHeaderInv(s: State)
    requires Inv(s) && s.c.pc.CHeader?
    ensures Inv(StepConsumer(s))
  {
    hide Wrap64, Slot, RecordSize, Laid, HeaderAt, GoodSize, ProducerInv, Payload;
    FirstRecord(s);
    SameProducer(s, StepConsumer(s));
  }

  lemma ConsumerCopyInv(s: State)
    requires Inv(s) && s.c.pc.CCopy? && |s.c.pc.out| < s.c.pc.length
    ensures Inv(StepConsumer(s))
  {
    hide Wrap64, Slot, RecordSize, Laid, HeaderAt, GoodSize, ProducerInv;
    var size, t, out := |s.buf|, s.past.t, s.c.pc.out;
    RecordSizeFacts(s.c.pc.length);
    FirstRecord(s);
    SlotShift(t, HEADER + |out|, size);
    assert s.buf[Slot(t + HEADER + |out|, size)] == Pending(s.past)[0][|out|];
    SameProducer(s, StepConsumer(s));
  }

  lemma ConsumerPublishInv(s: State)
    requires Inv(s) && s.c.pc.CCopy? && |s.c.pc.out| == s.c.pc.length
    ensures Inv(StepConsumer(s))
    ensures Pending(s.past) == [s.c.pc.out] + Pending(StepConsumer(s).past)
  {
    hide Wrap64, Slot, RecordSize, HeaderAt, GoodSize, ProducerInv, Record;
    var t, length := s.past.t, s.c.pc.length;
    WordSum(t, RecordSize(length));
    RecordSizeFacts(length);
    FirstOfPending(s);
    assert s.c.pc.out == Pending(s.past)[0];
    assert Pending(StepConsumer(s).past) == Pending(s.past)[1..];
    SameProducer(s, StepConsumer(s));
  }

  // ---- Every step, every run ------------------------------------------------------------------

  lemma ProducerStepInv(s: State)
    requires Inv(s)
    ensures Inv(StepProducer(s)) && |StepProducer(s).buf| == |s.buf|
    ensures Agree(s.buf, StepProducer(s).buf, s.past.t, s.past.h)
  {
    hide Inv, Slot;
    assert |s.buf| >= 8 && ProducerInv(s) by { InvSize(s); }
    match s.p.pc
    case PIdle =>
    case PHeader(_) => HeaderStepInv(s);
    case PCopy(data, i) => if i < |data| { CopyStepInv(s); } else { PublishInv(s); }
    case _ => LoadStepInv(s);
  }

  lemma InvSize(s: State)
    requires Inv(s)
    ensures |s.buf| >= 8 && ProducerInv(s) && ConsumerInv(s)
  {
  }

  lemma ConsumerStepInv(s: State)
    requires Inv(s)
    ensures Inv(StepConsumer(s)) && StepConsumer(s).buf == s.buf
  {
    hide Inv, Slot, Laid;
    InvSize(s);
    match s.c.pc
    case CIdle =>
    case CHeader(_, _) => ConsumerHeaderInv(s);
    case CCopy(length, out) => if |out| < length { ConsumerCopyInv(s); } else { CopyDone(s); ConsumerPublishInv(s); }
    case _ => ConsumerLoadInv(s);
  }

  lemma CopyDone(s: State)
    requires ConsumerInv(s) && s.c.pc.CCopy? && |s.c.pc.out| >= s.c.pc.length
    ensures |s.c.pc.out| == s.c.pc.length
  {
  }

  /** Any step of either side keeps the invariant and overwrites nothing between published tail and head. */
  lemma StepInv(s: State, act: Action)
    requires Inv(s)
    ensures Inv(Next(s, act)) && |Next(s, act).buf| == |s.buf|
    ensures Agree(s.buf, Next(s, act).buf, s.past.t, s.past.h)
  {
    hide Inv, Slot, StepProducer, StepConsumer;
    InvSize(s);
    match act
    case AttachProducer => AttachInv(s);
    case AttachConsumer => AttachInv(s);
    case Write(data) => if s.p.pc == PIdle { BeginWriteInv(s, data); }
    case Produce => ProducerStepInv(s);
    case Read(room) => if s.c.pc == CIdle { BeginReadInv(s, room); }
    case Consume => ConsumerStepInv(s);
  }

  lemma AttachInv(s: State)
    requires Inv(s)
    ensures Inv(Next(s, AttachProducer)) && Inv(Next(s, AttachConsumer))
  {
    hide Laid, Slot, Wrap64, GoodSize, RecordSize, HeaderAt;
  }

  /** states[i] leads to states[i + 1] by acts[i], from a ring just created over the given memory. */
  predicate IsRun(states: seq<State>, acts: seq<Action>, memory: seq<byte>) {
    && |states| == |acts| + 1 && states[0] == Start(memory)
    && forall i :: 0 <= i < |acts| ==> |states[i].buf| >= 8 && states[i + 1] == Next(states[i], acts[i])
  }

  lemma {:induction false} RunInv(states: seq<State>, acts: seq<Action>, memory: seq<byte>, k: nat)
    requires GoodSize(|memory|) && IsRun(states, acts, memory) && k < |states|
    ensures Inv(states[k]) && |states[k].buf| == |memory|
  {
    hide Inv, Next, Start;
    if k == 0 {
      StartInv(memory);
    } else {
      RunInv(states, acts, memory, k - 1);
      assert |states[k - 1].buf| >= 8 && states[k - 1 + 1] == Next(states[k - 1], acts[k - 1]);
      StepInv(states[k - 1], acts[k - 1]);
    }
  }

  /**
   * In every interleaving, with cursors that wrap at 2^64 and cached peer cursors, the packets delivered are the
   * first packets published, in order; no length read back is ever rejected as corrupt; and no context is refused.
   */
  lemma RingSafety(states: seq<State>, acts: seq<Action>, memory: seq<byte>, k: nat)
    requires GoodSize(|memory|) && IsRun(states, acts, memory) && k < |states|
    ensures states[k].past.received <= states[k].past.sent
    ensures states[k].c.outcome != Corrupt && states[k].p.pc != PDetached && states[k].c.pc != CDetached
  {
    hide IsRun, Laid;
    RunInv(states, acts, memory, k);
  }
}
