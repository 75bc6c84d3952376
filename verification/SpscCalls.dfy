/** What one WritePacket or ReadPacket does as a whole, while the other side goes on with its own calls. */
module SpscCalls {
  import opened Words
  import opened SpscRing
  import opened SpscSafety

  /** How many of the actions are steps of the given kind. */
  function Steps(acts: seq<Action>, act: Action): nat {
    if acts == [] then 0 else Steps(acts[..|acts| - 1], act) + if acts[|acts| - 1] == act then 1 else 0
  }

  lemma StepsOfPrefix(acts: seq<Action>, lo: nat, hi: nat, act: Action)
    requires lo < hi <= |acts|
    ensures Steps(acts[lo..hi], act) == Steps(acts[lo..hi - 1], act) + if acts[hi - 1] == act then 1 else 0
  {
    assert acts[lo..hi][..hi - lo - 1] == acts[lo..hi - 1];
  }

  predicate Fits(s: State, data: seq<byte>) {
    s.past.h + RecordSize(|data|) <= s.past.t + |s.buf|
  }

  // ---- A write --------------------------------------------------------------------------------

  predicate StartsWrite(act: Action) {
    act.Write? || act.AttachProducer?
  }

  /** How a write begun in s0 has ended by s. */
  predicate WriteEnds(s0: State, s: State, data: seq<byte>) {
    match s.p.outcome
    case NotWritten => false
    case Rejected => !Writable(s0, data) && s.past.sent == s0.past.sent
    case Full => Writable(s0, data) && s.past.sent == s0.past.sent && !Fits(s0, data)
    case Written =>
      && Writable(s0, data) && s.past.sent == s0.past.sent + [data]
      && s0.past.h + RecordSize(|data|) <= s.past.t + |s.buf|
  }

  predicate Carries(pc: ProducerPc, data: seq<byte>) {
    match pc
    case PReload(d) => d == data
    case PLoad(d) => d == data
    case PHeader(d) => d == data
    case PCopy(d, i) => d == data && i <= |data|
    case _ => false
  }

  /** How many more steps of its own the producer needs at most. */
  function WriteRank(pc: ProducerPc): int {
    match pc
    case PReload(data) => |data| + 4
    case PLoad(data) => |data| + 3
    case PHeader(data) => |data| + 2
    case PCopy(data, i) => |data| - i + 1
    case _ => 0
  }

  predicate WriteGoesOn(s0: State, s: State, data: seq<byte>) {
    && |s.buf| == |s0.buf| && s0.past.t <= s.past.t
    && if s.p.pc == PIdle then WriteEnds(s0, s, data)
       else
         && s.past.sent == s0.past.sent && s.past.h == s0.past.h && Writable(s0, data)
         && Carries(s.p.pc, data) && s.p.outcome == NotWritten
  }

  lemma WriteBegins(s: State, data: seq<byte>)
    requires Inv(s) && s.p.pc == PIdle
    ensures WriteGoesOn(s, Next(s, Write(data)), data) && WriteRank(Next(s, Write(data)).p.pc) <= |data| + 4
  {
    hide Wrap64, RecordSize, Laid, GoodSize, ConsumerInv, Slot, HeaderAt;
  }

  lemma ConsumerElsewhere(s: State, act: Action)
    requires |s.buf| >= 8 && !StartsWrite(act) && act != Produce
    ensures var s' := Next(s, act);
            && s'.p == s.p && s'.buf == s.buf && s'.past.sent == s.past.sent && s'.past.h == s.past.h
            && s.past.t <= s'.past.t && s'.past.pt == s.past.pt
  {
    hide Wrap64, Slot, HeaderAt, DataAt, BeginCopy;
    RecordSizeFacts(if s.c.pc.CCopy? then s.c.pc.length else 0);
  }

  lemma WriteLoads(s0: State, s: State, data: seq<byte>)
    requires Inv(s) && WriteGoesOn(s0, s, data) && (s.p.pc.PReload? || s.p.pc.PLoad?)
    ensures WriteGoesOn(s0, StepProducer(s), data) && WriteRank(StepProducer(s).p.pc) < WriteRank(s.p.pc)
  {
    hide Wrap64, RecordSize, Laid, GoodSize, ConsumerInv, Slot, HeaderAt, DataAt;
    UsedByProducer(s);
  }

  lemma WriteHeads(s0: State, s: State, data: seq<byte>)
    requires Inv(s) && WriteGoesOn(s0, s, data) && s.p.pc.PHeader?
    ensures WriteGoesOn(s0, StepProducer(s), data) && WriteRank(StepProducer(s).p.pc) < WriteRank(s.p.pc)
  {
    hide Wrap64, RecordSize, Laid, GoodSize, ConsumerInv, Slot, HeaderAt, DataAt, ToLE;
    HeaderFits(s);
  }

  lemma WriteCopies(s0: State, s: State, data: seq<byte>)
    requires Inv(s) && WriteGoesOn(s0, s, data) && s.p.pc.PCopy?
    ensures WriteGoesOn(s0, StepProducer(s), data) && WriteRank(StepProducer(s).p.pc) < WriteRank(s.p.pc)
  {
    hide Wrap64, RecordSize, Laid, GoodSize, ConsumerInv, Slot, HeaderAt, Payload;
    HeaderFits(s);
  }

  lemma WriteStep(s0: State, s: State, data: seq<byte>)
    requires Inv(s) && WriteGoesOn(s0, s, data)
    ensures WriteGoesOn(s0, StepProducer(s), data)
    ensures s.p.pc != PIdle ==> WriteRank(StepProducer(s).p.pc) < WriteRank(s.p.pc)
  {
    hide Inv, StepProducer, WriteRank;
    InvSize(s);
    if s.p.pc == PIdle {
      IdleStays(s);
    } else if s.p.pc.PHeader? {
      WriteHeads(s0, s, data);
    } else if s.p.pc.PCopy? {
      WriteCopies(s0, s, data);
    } else {
      WriteLoads(s0, s, data);
    }
  }

  lemma WriteUnderInterference(s0: State, s: State, act: Action, data: seq<byte>)
    requires Inv(s) && WriteGoesOn(s0, s, data) && !StartsWrite(act)
    ensures WriteGoesOn(s0, Next(s, act), data)
    ensures WriteRank(Next(s, act).p.pc) <=
            if act == Produce && s.p.pc != PIdle then WriteRank(s.p.pc) - 1 else WriteRank(s.p.pc)
  {
    hide Inv, StepProducer, StepConsumer;
    InvSize(s);
    if act == Produce {
      assert Next(s, act) == StepProducer(s);
      WriteStep(s0, s, data);
      IdleStays(s);
    } else {
      ConsumerElsewhere(s, act);
      StillWriting(s0, s, Next(s, act), data);
    }
  }

  lemma IdleStays(s: State)
    requires |s.buf| >= 8
    ensures s.p.pc == PIdle ==> StepProducer(s) == s
    ensures s.c.pc == CIdle ==> StepConsumer(s) == s
  {
    hide Wrap64, RecordSize, Slot, HeaderAt;
  }

  lemma StillWriting(s0: State, s: State, s': State, data: seq<byte>)
    requires WriteGoesOn(s0, s, data)
    requires s'.p == s.p && |s'.buf| == |s.buf| && s'.past.sent == s.past.sent && s'.past.h == s.past.h
    requires s.past.t <= s'.past.t
    ensures WriteGoesOn(s0, s', data)
  {
    hide RecordSize;
  }

  lemma {:induction false} WriteRuns(
    states: seq<State>, acts: seq<Action>, memory: seq<byte>, j: nat, k: nat, data: seq<byte>)
    requires GoodSize(|memory|) && IsRun(states, acts, memory) && j < k < |states|
    requires states[j].p.pc == PIdle && acts[j] == Write(data)
    requires forall i :: j < i < k ==> !StartsWrite(acts[i])
    ensures WriteGoesOn(states[j], states[k], data)
    ensures states[k].p.pc == PIdle || WriteRank(states[k].p.pc) + Steps(acts[j + 1..k], Produce) <= |data| + 4
    decreases k
  {
    hide Inv, Next, Start, WriteGoesOn, WriteRank, Steps;
    RunInv(states, acts, memory, k - 1);
    assert states[k - 1 + 1] == Next(states[k - 1], acts[k - 1]);
    if k == j + 1 {
      WriteBegins(states[j], data);
      assert Steps(acts[j + 1..k], Produce) == 0 by { NoSteps(Produce); assert acts[j + 1..k] == []; }
    } else {
      WriteRuns(states, acts, memory, j, k - 1, data);
      WriteUnderInterference(states[j], states[k - 1], acts[k - 1], data);
      StepsOfPrefix(acts, j + 1, k, Produce);
      if states[k - 1].p.pc == PIdle { ProducerIdles(states[k - 1], acts[k - 1]); }
    }
  }

  lemma NoSteps(act: Action)
    ensures Steps([], act) == 0
  {
  }

  lemma ProducerIdles(s: State, act: Action)
    requires |s.buf| >= 8 && s.p.pc == PIdle && !StartsWrite(act)
    ensures Next(s, act).p.pc == PIdle
  {
    hide StepConsumer, StepProducer;
    if act == Produce { IdleStays(s); } else { ConsumerElsewhere(s, act); }
  }

  /**
   * WritePacket under any interleaving with a consumer: it ends within |data| + 4 of its own steps, whatever the
   * consumer does, and has then either published exactly data, or refused it as empty or too long, or published
   * nothing because the record did not fit when the call began.
   */
  lemma WriteCall(states: seq<State>, acts: seq<Action>, memory: seq<byte>, j: nat, k: nat, data: seq<byte>)
    requires GoodSize(|memory|) && IsRun(states, acts, memory) && j < k < |states|
    requires states[j].p.pc == PIdle && acts[j] == Write(data)
    requires forall i :: j < i < k ==> !StartsWrite(acts[i])
    ensures if states[k].p.pc == PIdle then WriteEnds(states[j], states[k], data)
            else states[k].past.sent == states[j].past.sent
    ensures Steps(acts[j + 1..k], Produce) >= |data| + 4 ==> states[k].p.pc == PIdle
  {
    hide IsRun, Steps;
    WriteRuns(states, acts, memory, j, k, data);
  }

  // ---- A read ---------------------------------------------------------------------------------

  predicate StartsRead(act: Action) {
    act.Read? || act.AttachConsumer?
  }

  /** How a read begun in s0 has ended by s: the next packet is the first one published and not delivered. */
  predicate ReadEnds(s0: State, s: State, room: nat) {
    var n := |s0.past.received|;
    match s.c.outcome
    case NotRead => false
    case Corrupt => false
    case Empty => s.past.received == s0.past.received && Pending(s0.past) == []
    case TooSmall(needed) =>
      s.past.received == s0.past.received && n < |s.past.sent| && room < needed == |s.past.sent[n]|
    case Delivered(packet) =>
      s.past.received == s0.past.received + [packet] && n < |s.past.sent| && packet == s.past.sent[n]
      && |packet| <= room
  }

  predicate Wants(pc: ConsumerPc, room: nat) {
    match pc
    case CLoad(r) => r == room
    case CHeader(r, _) => r == room
    case CReload(r, _) => r == room
    case CCopy(length, _) => length <= room
    case _ => false
  }

  /** How many more steps of its own the consumer needs at most, in a ring of the given size. */
  function ReadRank(pc: ConsumerPc, size: nat): int {
    match pc
    case CLoad(_) => size / 2 + 4
    case CHeader(_, _) => size / 2 + 3
    case CReload(_, _) => size / 2 + 2
    case CCopy(length, out) => length - |out| + 1
    case _ => 0
  }

  predicate ReadGoesOn(s0: State, s: State, room: nat) {
    && |s.buf| == |s0.buf| && s0.past.sent <= s.past.sent
    && if s.c.pc == CIdle then ReadEnds(s0, s, room)
       else s.past.received == s0.past.received && Wants(s.c.pc, room) && s.c.outcome == NotRead
  }

  lemma ReadBegins(s: State, room: nat)
    requires Inv(s) && s.c.pc == CIdle
    ensures ReadGoesOn(s, Next(s, Read(room)), room) && ReadRank(Next(s, Read(room)).c.pc, |s.buf|) <= |s.buf| / 2 + 4
  {
    hide Wrap64, RecordSize, Laid, GoodSize, ProducerInv, Slot, HeaderAt;
  }

  lemma ProducerElsewhere(s: State, act: Action)
    requires Inv(s) && !StartsRead(act) && act != Consume
    ensures |s.buf| >= 8
    ensures var s' := Next(s, act);
            && s'.c == s.c && |s'.buf| == |s.buf| && s'.past.received == s.past.received && s.past.sent <= s'.past.sent
  {
    hide Inv, Wrap64, Slot, HeaderAt, RecordSize, AfterUsed, ToLE, Agree;
    InvSize(s);
    StepInv(s, act);
  }

  lemma ReadLoads(s0: State, s: State, room: nat)
    requires Inv(s) && ReadGoesOn(s0, s, room) && s.c.pc.CLoad?
    ensures ReadGoesOn(s0, StepConsumer(s), room)
    ensures ReadRank(StepConsumer(s).c.pc, |s.buf|) < ReadRank(s.c.pc, |s.buf|)
  {
    hide Wrap64, RecordSize, Laid, GoodSize, ProducerInv, Slot, HeaderAt, DataAt;
    ConsumerLoadInv(s);
    if s.past.h == s.past.t { NothingPending(s); }
  }

  lemma NothingPending(s: State)
    requires Inv(s) && s.past.h == s.past.t
    ensures Pending(s.past) == [] && s.past.received == s.past.sent
  {
    hide RecordSize, ProducerInv, Record;
    LaidForward(s.buf, s.past.t, Pending(s.past), s.past.h);
    if Pending(s.past) != [] { RecordSizeFacts(|Pending(s.past)[0]|); }
  }

  lemma ReadHeads(s0: State, s: State, room: nat)
    requires Inv(s) && ReadGoesOn(s0, s, room) && (s.c.pc.CHeader? || s.c.pc.CReload?)
    ensures ReadGoesOn(s0, StepConsumer(s), room)
    ensures ReadRank(StepConsumer(s).c.pc, |s.buf|) < ReadRank(s.c.pc, |s.buf|)
  {
    hide Wrap64, RecordSize, Laid, GoodSize, ProducerInv, Slot, HeaderAt, DataAt, Payload;
    if s.c.pc.CReload? { FirstOfPending(s); RecordSizeFacts(s.c.pc.length); }
    FirstRecord(s);
    UsedByConsumer(s);
  }

  lemma ReadCopies(s0: State, s: State, room: nat)
    requires Inv(s) && ReadGoesOn(s0, s, room) && s.c.pc.CCopy?
    ensures ReadGoesOn(s0, StepConsumer(s), room)
    ensures ReadRank(StepConsumer(s).c.pc, |s.buf|) < ReadRank(s.c.pc, |s.buf|)
  {
    hide Wrap64, RecordSize, Laid, GoodSize, ProducerInv, Slot, HeaderAt, Payload;
    RecordSizeFacts(s.c.pc.length);
    FirstRecord(s);
  }

  lemma ReadStep(s0: State, s: State, room: nat)
    requires Inv(s) && ReadGoesOn(s0, s, room)
    ensures ReadGoesOn(s0, StepConsumer(s), room)
    ensures s.c.pc != CIdle ==> ReadRank(StepConsumer(s).c.pc, |s.buf|) < ReadRank(s.c.pc, |s.buf|)
  {
    hide Inv, StepConsumer, ReadRank;
    InvSize(s);
    if s.c.pc == CIdle {
      IdleStays(s);
    } else if s.c.pc.CLoad? {
      ReadLoads(s0, s, room);
    } else if s.c.pc.CCopy? {
      ReadCopies(s0, s, room);
    } else {
      ReadHeads(s0, s, room);
    }
  }

  lemma StillReading(s0: State, s: State, s': State, room: nat)
    requires ReadGoesOn(s0, s, room)
    requires s'.c == s.c && |s'.buf| == |s.buf| && s'.past.received == s.past.received && s.past.sent <= s'.past.sent
    ensures ReadGoesOn(s0, s', room)
  {
  }

  lemma ReadUnderInterference(s0: State, s: State, act: Action, room: nat)
    requires Inv(s) && ReadGoesOn(s0, s, room) && !StartsRead(act)
    ensures ReadGoesOn(s0, Next(s, act), room)
    ensures s.c.pc == CIdle ==> Next(s, act).c.pc == CIdle
    ensures ReadRank(Next(s, act).c.pc, |s.buf|) <=
            ReadRank(s.c.pc, |s.buf|) - if act == Consume && s.c.pc != CIdle then 1 else 0
  {
    hide Inv, StepProducer, StepConsumer, ReadGoesOn, ReadRank;
    InvSize(s);
    if act == Consume {
      assert Next(s, act) == StepConsumer(s);
      ReadStep(s0, s, room);
      IdleStays(s);
    } else {
      ProducerElsewhere(s, act);
      StillReading(s0, s, Next(s, act), room);
    }
  }

  lemma {:induction false} ReadRuns(
    states: seq<State>, acts: seq<Action>, memory: seq<byte>, j: nat, k: nat, room: nat)
    requires GoodSize(|memory|) && IsRun(states, acts, memory) && j < k < |states|
    requires states[j].c.pc == CIdle && acts[j] == Read(room)
    requires forall i :: j < i < k ==> !StartsRead(acts[i])
    ensures ReadGoesOn(states[j], states[k], room)
    ensures states[k].c.pc == CIdle
            || ReadRank(states[k].c.pc, |memory|) + Steps(acts[j + 1..k], Consume) <= |memory| / 2 + 4
    decreases k
  {
    hide Inv, Next, Start, ReadGoesOn, ReadRank, Steps;
    RunInv(states, acts, memory, k - 1);
    assert states[k - 1 + 1] == Next(states[k - 1], acts[k - 1]);
    if k == j + 1 {
      ReadBegins(states[j], room);
      assert Steps(acts[j + 1..k], Consume) == 0 by { NoSteps(Consume); assert acts[j + 1..k] == []; }
    } else {
      ReadRuns(states, acts, memory, j, k - 1, room);
      ReadUnderInterference(states[j], states[k - 1], acts[k - 1], room);
      StepsOfPrefix(acts, j + 1, k, Consume);
    }
  }

  /**
   * ReadPacket under any interleaving with a producer: it ends within size / 2 + 4 of its own steps, whatever the
   * producer does, and has then either delivered exactly the next packet, or left it in place because the caller's
   * buffer is too small for it, or found nothing where nothing was pending when the call began.
   */
  lemma ReadCall(states: seq<State>, acts: seq<Action>, memory: seq<byte>, j: nat, k: nat, room: nat)
    requires GoodSize(|memory|) && IsRun(states, acts, memory) && j < k < |states|
    requires states[j].c.pc == CIdle && acts[j] == Read(room)
    requires forall i :: j < i < k ==> !StartsRead(acts[i])
    ensures if states[k].c.pc == CIdle then ReadEnds(states[j], states[k], room)
            else states[k].past.received == states[j].past.received
    ensures Steps(acts[j + 1..k], Consume) >= |memory| / 2 + 4 ==> states[k].c.pc == CIdle
  {
    hide IsRun, Steps;
    ReadRuns(states, acts, memory, j, k, room);
    RunInv(states, acts, memory, k);
    if states[k].c.pc != CIdle { Unfinished(states[k]); }
  }

  lemma Unfinished(s: State)
    requires Inv(s) && s.c.pc != CIdle
    ensures s.c.pc.CAttachTail? || s.c.pc.CAttachHead? || ReadRank(s.c.pc, |s.buf|) >= 1
  {
    hide Laid, ProducerInv;
  }
}
