/** The KCP object: each method's loops and updates in place, proved against the state machine of module Kcp. */
module KcpMachine {
  import opened Words
  import opened Kcp
  import K = Kcp
  import opened KcpWindow
  import opened KcpHeap
  import opened KcpMessages
  import opened KcpWire
  import opened KcpQueue

  /** Every queued or numbered fragment fits a segment. */
  predicate Fits(k: Kcp) {
    && (forall i :: 0 <= i < |k.sndQueue| ==> |k.sndQueue[i].data| <= k.mss)
    && (forall i :: 0 <= i < |k.sndBuf| ==> |k.sndBuf[i].fragment.data| <= k.mss)
  }

  const SND_CAPACITY: nat := 64
  const RCV_CAPACITY: nat := 64
  const NO_FRAGMENT: Fragment := Fragment(0, [])
  const NO_SEGMENT: Outgoing := Outgoing(0, Fragment(0, []), false)

  class Machine {
    const cfg: Config
    const mtu: nat
    const mss: nat
    const stream: bool
    const sndWnd: nat
    const rcvWnd: nat
    const reserve: seq<byte>
    const heap: SegmentHeap
    const sndRing: RingQueue<Fragment>
    const bufRing: RingQueue<Outgoing>
    const rcvRing: RingQueue<Fragment>

    var rmtWnd: u16
    var sndUna: u32
    var sndNxt: u32
    var rcvNxt: u32
    /** The contents of the three queues. */
    ghost var sndQueue: seq<Fragment>
    ghost var sndBuf: seq<Outgoing>
    ghost var rcvQueue: seq<Fragment>
    var acks: seq<AckItem>
    var tell: bool
    var output: seq<seq<byte>>

    ghost function View(): Kcp
      reads this, heap
    {
      Kcp(mss, stream, sndWnd, rcvWnd, rmtWnd, sndUna, sndNxt, rcvNxt, sndQueue, sndBuf, heap.contents, rcvQueue, acks,
          tell)
    }

    ghost predicate Valid()
      reads this, heap, sndRing, sndRing.elements, bufRing, bufRing.elements, rcvRing, rcvRing.elements
    {
      && heap.Valid() && Queued()
      && mss > 0 && mtu == |reserve| + Overhead(cfg) + mss && mtu < 0x1_0000_0000
      && Windows(View()) && Fits(View())
    }

    constructor (cfg: Config, mtu: nat, reserve: seq<byte>, stream: bool, sndWnd: nat, rcvWnd: nat)
      requires |reserve| + Overhead(cfg) < mtu < 0x1_0000_0000 && rcvWnd <= MAX_WINDOW
      ensures Valid() && fresh({heap, sndRing, sndRing.elements, bufRing, bufRing.elements, rcvRing, rcvRing.elements})
      ensures View() == NewKcp(mtu - Overhead(cfg) - |reserve|, stream, sndWnd, rcvWnd) && output == []
    {
      hide Windows, Fits, Represents, Ordered;
      this.cfg, this.mtu, this.reserve, this.stream := cfg, mtu, reserve, stream;
      this.sndWnd, this.rcvWnd, mss := sndWnd, rcvWnd, mtu - Overhead(cfg) - |reserve|;
      heap := new SegmentHeap();
      sndRing := new RingQueue<Fragment>(SND_CAPACITY, NO_FRAGMENT);
      bufRing := new RingQueue<Outgoing>(SND_CAPACITY, NO_SEGMENT);
      rcvRing := new RingQueue<Fragment>(RCV_CAPACITY, NO_FRAGMENT);
      rmtWnd, sndUna, sndNxt, rcvNxt := 32, 0, 0, 0;
      sndQueue, sndBuf, rcvQueue, acks, tell, output := [], [], [], [], false, [];
      NewKeeps(mtu - Overhead(cfg) - |reserve|, stream, sndWnd, rcvWnd);
    }

    // ---- The queues ---------------------------------------------------------------------------

    ghost predicate Apart()
      reads sndRing`elements, bufRing`elements, rcvRing`elements
    {
      && sndRing != rcvRing && sndRing.elements != rcvRing.elements
      && (sndRing.elements as object) != bufRing.elements && (rcvRing.elements as object) != bufRing.elements
    }

    ghost predicate SndHeld()
      reads this`sndQueue, sndRing, sndRing.elements
    {
      sndRing.Valid() && sndRing.Contents() == sndQueue
    }

    ghost predicate BufHeld()
      reads this`sndBuf, bufRing, bufRing.elements
    {
      bufRing.Valid() && bufRing.Contents() == sndBuf
    }

    ghost predicate RcvHeld()
      reads this`rcvQueue, rcvRing, rcvRing.elements
    {
      rcvRing.Valid() && rcvRing.Contents() == rcvQueue
    }

    ghost predicate Queued()
      reads this`sndQueue, this`sndBuf, this`rcvQueue
      reads sndRing, sndRing.elements, bufRing, bufRing.elements, rcvRing, rcvRing.elements
    {
      Apart() && SndHeld() && BufHeld() && RcvHeld()
    }

    function RcvLen(): (n: nat)
      requires RcvHeld()
      reads this`rcvQueue, rcvRing, rcvRing.elements
      ensures n == |rcvQueue|
    {
      rcvRing.length
    }

    function RcvItem(i: nat): (f: Fragment)
      requires RcvHeld() && i < |rcvQueue|
      reads this`rcvQueue, rcvRing, rcvRing.elements
      ensures f == rcvQueue[i]
    {
      rcvRing.Item(i)
    }

    method RcvPush(f: Fragment)
      requires RcvHeld()
      modifies this`rcvQueue, rcvRing, rcvRing.elements
      ensures RcvHeld() && rcvQueue == old(rcvQueue) + [f]
      ensures rcvRing.elements == old(rcvRing.elements) || fresh(rcvRing.elements)
    {
      rcvRing.Push(f, NO_FRAGMENT);
      rcvQueue := rcvQueue + [f];
    }

    method RcvPop() returns (f: Fragment)
      requires RcvHeld() && rcvQueue != []
      modifies this`rcvQueue, rcvRing, rcvRing.elements
      ensures RcvHeld() && f == old(rcvQueue)[0] && rcvQueue == old(rcvQueue)[1..]
      ensures rcvRing.elements == old(rcvRing.elements)
    {
      var ok;
      f, ok := rcvRing.Pop(NO_FRAGMENT);
      rcvQueue := rcvQueue[1..];
    }

    function SndLen(): (n: nat)
      requires SndHeld()
      reads this`sndQueue, sndRing, sndRing.elements
      ensures n == |sndQueue|
    {
      sndRing.length
    }

    method SndPush(f: Fragment)
      requires SndHeld()
      modifies this`sndQueue, sndRing, sndRing.elements
      ensures SndHeld() && sndQueue == old(sndQueue) + [f]
      ensures sndRing.elements == old(sndRing.elements) || fresh(sndRing.elements)
    {
      sndRing.Push(f, NO_FRAGMENT);
      sndQueue := sndQueue + [f];
    }

    method SndPop() returns (f: Fragment)
      requires SndHeld() && sndQueue != []
      modifies this`sndQueue, sndRing, sndRing.elements
      ensures SndHeld() && f == old(sndQueue)[0] && sndQueue == old(sndQueue)[1..]
      ensures sndRing.elements == old(sndRing.elements)
    {
      var ok;
      f, ok := sndRing.Pop(NO_FRAGMENT);
      sndQueue := sndQueue[1..];
    }

    /** Stream mode fills the last queued segment up; what is left of the bytes is returned. */
    method SndExtend(bytes: seq<byte>) returns (rest: seq<byte>)
      requires SndHeld() && stream && bytes != []
      modifies this`sndQueue, sndRing.elements
      ensures SndHeld() && sndRing.elements == old(sndRing.elements)
      ensures View() == Extended(old(View()), bytes) && rest == bytes[Extension(old(View()), bytes)..]
    {
      rest := bytes;
      var last, ok := sndRing.Last();
      if ok && |last.data| < mss {
        var extend := Min(mss - |last.data|, |bytes|);
        sndRing.SetLast(last.(data := last.data + bytes[..extend]));
        sndQueue := sndQueue[..|sndQueue| - 1] + [last.(data := last.data + bytes[..extend])];
        rest := bytes[extend..];
      }
    }

    function BufLen(): (n: nat)
      requires BufHeld()
      reads this`sndBuf, bufRing, bufRing.elements
      ensures n == |sndBuf|
    {
      bufRing.length
    }

    function BufItem(i: nat): (o: Outgoing)
      requires BufHeld() && i < |sndBuf|
      reads this`sndBuf, bufRing, bufRing.elements
      ensures o == sndBuf[i]
    {
      bufRing.Item(i)
    }

    method BufPush(o: Outgoing)
      requires BufHeld()
      modifies this`sndBuf, bufRing, bufRing.elements
      ensures BufHeld() && sndBuf == old(sndBuf) + [o]
      ensures bufRing.elements == old(bufRing.elements) || fresh(bufRing.elements)
    {
      bufRing.Push(o, NO_SEGMENT);
      sndBuf := sndBuf + [o];
    }

    method BufDiscard(count: nat)
      requires BufHeld() && count <= |sndBuf|
      modifies this`sndBuf, bufRing, bufRing.elements
      ensures BufHeld() && sndBuf == old(sndBuf)[count..] && bufRing.elements == old(bufRing.elements)
    {
      var n := bufRing.Discard(count, NO_SEGMENT);
      sndBuf := sndBuf[count..];
    }

    method BufSet(i: nat, o: Outgoing)
      requires BufHeld() && i < |sndBuf|
      modifies this`sndBuf, bufRing.elements
      ensures BufHeld() && sndBuf == old(sndBuf)[i := o]
    {
      bufRing.SetItem(i, o);
      sndBuf := sndBuf[i := o];
    }

    // ---- Receiving --------------------------------------------------------------------------

    method PeekSize() returns (length: int)
      requires RcvHeld()
      ensures length == K.PeekSize(View())
    {
      hide Joined, FirstMessage, RcvHeld;
      if RcvLen() == 0 { return -1; }
      if RcvItem(0).frg == 0 { return |RcvItem(0).data|; }
      if RcvLen() < (RcvItem(0).frg + 1) % 256 { return -1; }
      length := 0;
      var i := 0;
      JoinedNone(rcvQueue);
      while i < RcvLen()
        invariant 0 <= i <= |rcvQueue|
        invariant i + FirstMessage(rcvQueue[i..]) == FirstMessage(rcvQueue)
                  || (i == FirstMessage(rcvQueue) == |rcvQueue|)
        invariant length == |Joined(rcvQueue[..i])|
      {
        length := length + |RcvItem(i).data|;
        JoinedNext(rcvQueue, i);
        FirstNext(rcvQueue[i..]);
        i := i + 1;
        if RcvItem(i - 1).frg == 0 { return; }
        assert rcvQueue[i - 1..][1..] == rcvQueue[i..];
      }
      FirstNext([]);
    }

    /** Merges the fragments of the next message, then moves what has become deliverable. */
    method Recv(room: nat) returns (n: int, message: seq<byte>)
      requires Valid()
      modifies this, heap, rcvRing, rcvRing.elements
      ensures Valid() && output == old(output)
      ensures rcvRing.elements == old(rcvRing.elements) || fresh(rcvRing.elements)
      ensures View() == K.Recv(old(View()), room)
      ensures match RecvResult(old(View()), room)
              case NoData => n == -1
              case Short => n == -2
              case Message(bytes) => n == |bytes| && message == bytes
    {
      hide Joined, FirstMessage, Windows, Refill, Fits, SndHeld, BufHeld, RcvHeld;
      ghost var k := View();
      RecvKeeps(k, room);
      message := [];
      n := PeekSize();
      if n < 0 { return -1, []; }
      if n > room { return -2, []; }
      var fastRecover := RcvLen() >= rcvWnd;
      message := Merge();
      n := |message|;
      WindowsWindowed(k);
      Move();
      if RcvLen() < rcvWnd && fastRecover {
        tell := true;
      }
      RefillLeavesSends(k.(rcvQueue := k.rcvQueue[FirstMessage(k.rcvQueue)..]));
      FitsSame(k, View());
    }

    method Merge() returns (message: seq<byte>)
      requires RcvHeld() && rcvQueue != []
      modifies this`rcvQueue, rcvRing, rcvRing.elements
      ensures RcvHeld() && rcvRing.elements == old(rcvRing.elements)
      ensures message == Joined(old(rcvQueue)[..FirstMessage(old(rcvQueue))])
      ensures rcvQueue == old(rcvQueue)[FirstMessage(old(rcvQueue))..]
    {
      hide Joined, FirstMessage, RcvHeld;
      message := [];
      ghost var q := rcvQueue;
      ghost var i := 0;
      JoinedNone(q);
      while RcvLen() > 0
        invariant RcvHeld() && rcvRing.elements == old(rcvRing.elements)
        invariant 0 <= i <= |q| && rcvQueue == q[i..] && message == Joined(q[..i])
        invariant i + FirstMessage(q[i..]) == FirstMessage(q)
        decreases |rcvQueue|
      {
        var fragment := RcvPop();
        message := message + fragment.data;
        JoinedNext(q, i);
        FirstNext(q[i..]);
        assert q[i..][1..] == q[i + 1..];
        i := i + 1;
        if fragment.frg == 0 { return; }
      }
      FirstNext([]);
      assert q[i..] == [];
    }

    /** Pops the least segment of the heap; moves it when it is in order and fits, and pushes it back otherwise. */
    method MoveOne() returns (moved: bool)
      requires heap.Valid() && RcvHeld() && Windowed(View()) && heap.segments != []
      modifies this`rcvQueue, this`rcvNxt, heap, rcvRing, rcvRing.elements
      ensures RcvHeld() && (rcvRing.elements == old(rcvRing.elements) || fresh(rcvRing.elements))
      ensures heap.Valid() && Windowed(View()) && Refill(View()) == Refill(old(View()))
      ensures if moved then |heap.contents| < |old(heap.contents)| else View() == Refill(View())
    {
      hide Wrap32, Refill, Windowed, InRange, Represents, Ordered, Rank, RcvHeld;
      ghost var k := View();
      WindowInRange(k, heap.segments, heap.contents);
      RefillStep(k);
      var item, ok := heap.Pop(rcvNxt);
      LeastIsNext(k, item);
      moved := item.sn == rcvNxt && RcvLen() < rcvWnd;
      if moved {
        RcvPush(item.fragment);
        rcvNxt := Wrap32(rcvNxt + 1);
      } else {
        PopInRange(k, heap.segments, heap.contents, item);
        heap.Push(item, rcvNxt);
        assert heap.contents == k.rcvBuf;
      }
    }

    /** The loop that moves what is in order, and fits, from the heap to rcv_queue. */
    method Move()
      requires heap.Valid() && RcvHeld() && Windowed(View())
      modifies this`rcvQueue, this`rcvNxt, heap, rcvRing, rcvRing.elements
      ensures RcvHeld() && (rcvRing.elements == old(rcvRing.elements) || fresh(rcvRing.elements))
      ensures heap.Valid() && View() == Refill(old(View()))
    {
      hide Refill, Windowed, Represents, Ordered, RcvHeld;
      ghost var k := View();
      while |heap.segments| > 0
        invariant heap.Valid() && Windowed(View()) && Refill(View()) == Refill(k)
        invariant RcvHeld() && (rcvRing.elements == old(rcvRing.elements) || fresh(rcvRing.elements))
        decreases |heap.contents|
      {
        var moved := MoveOne();
        if !moved { return; }
      }
      NothingHeld(heap.segments, heap.contents);
      RefillStep(View());
    }

    method ParseData(sn: u32, fragment: Fragment) returns (repeat: bool)
      requires heap.Valid() && RcvHeld() && Windowed(View())
      modifies this`rcvQueue, this`rcvNxt, heap, rcvRing, rcvRing.elements
      ensures RcvHeld() && (rcvRing.elements == old(rcvRing.elements) || fresh(rcvRing.elements))
      ensures heap.Valid() && View() == K.ParseData(old(View()), sn, fragment)
      ensures repeat == (!(Wrap32(sn - old(rcvNxt)) < rcvWnd) || sn in old(heap.contents))
    {
      hide Wrap32, Diff32, Refill, Windowed, InRange, Represents, Ordered, Rank, RcvHeld;
      ghost var k := View();
      WindowBound(k);
      WindowTest(sn, rcvNxt, rcvWnd);
      if Diff32(sn, Wrap32(rcvNxt + rcvWnd)) >= 0 || Diff32(sn, rcvNxt) < 0 {
        return true;
      }
      repeat := false;
      if !heap.Has(sn) {
        WindowInRange(k, heap.segments, heap.contents);
        PushInRange(k, heap.segments, Item(sn, fragment));
        heap.Push(Item(sn, fragment), rcvNxt);
        InsertWindowed(k, sn, fragment);
      } else {
        repeat := true;
      }
      Move();
    }

    // ---- Acknowledgements -------------------------------------------------------------------

    /** Drops what a cumulative acknowledgement covers. */
    method ParseUna(una: u32) returns (count: nat)
      requires BufHeld()
      modifies this`sndBuf, bufRing, bufRing.elements
      ensures BufHeld() && bufRing.elements == old(bufRing.elements)
      ensures count == UnaCount(old(sndBuf), una) && sndBuf == old(sndBuf)[count..]
    {
      hide Diff32, BufHeld;
      count := 0;
      while count < BufLen() && Diff32(una, BufItem(count).sn) > 0
        invariant 0 <= count <= |sndBuf| && sndBuf == old(sndBuf)
        invariant count + UnaCount(sndBuf[count..], una) == UnaCount(sndBuf, una)
      {
        assert sndBuf[count..][1..] == sndBuf[count + 1..];
        count := count + 1;
      }
      BufDiscard(count);
    }

    method ShrinkBuf()
      requires BufHeld()
      modifies this`sndUna
      ensures sndUna == if sndBuf != [] then sndBuf[0].sn else sndNxt
    {
      if BufLen() > 0 { sndUna := BufItem(0).sn; } else { sndUna := sndNxt; }
    }

    /** Marks one segment acknowledged in place and drops its data. */
    method ParseAck(sn: u32)
      requires BufHeld()
      modifies this`sndBuf, bufRing.elements
      ensures BufHeld() && View() == K.ParseAck(old(View()), sn)
    {
      hide Diff32, BufHeld, MarkAcked;
      if Diff32(sn, sndUna) < 0 || Diff32(sn, sndNxt) >= 0 { return; }
      var i := 0;
      MarkNone(sndBuf, sn);
      while i < BufLen()
        invariant BufHeld() && 0 <= i <= |sndBuf| && sndBuf == old(sndBuf)
        invariant MarkAcked(sndBuf, sn) == sndBuf[..i] + MarkAcked(sndBuf[i..], sn)
      {
        MarkStep(sndBuf, sn, i);
        var o := BufItem(i);
        if o.sn == sn {
          BufSet(i, o.(acked := true, fragment := o.fragment.(data := [])));
          return;
        }
        if Diff32(sn, o.sn) < 0 { return; }
        i := i + 1;
      }
      MarkNone(sndBuf, sn);
    }

    // ---- Input ------------------------------------------------------------------------------

    /** parse_una and shrink_buf. */
    method TakeUna(una: u32)
      requires BufHeld()
      modifies this`sndBuf, this`sndUna, bufRing, bufRing.elements
      ensures BufHeld() && bufRing.elements == old(bufRing.elements) && View() == K.ParseUna(old(View()), una)
    {
      hide UnaCount, BufHeld;
      var count := ParseUna(una);
      ShrinkBuf();
    }

    /** A data segment: acknowledged when it lies below the end of the window, held when it lies in it. */
    method TakePush(seg: Segment)
      requires heap.Valid() && RcvHeld() && Windowed(View())
      modifies this`acks, this`rcvQueue, this`rcvNxt, heap, rcvRing, rcvRing.elements
      ensures RcvHeld() && (rcvRing.elements == old(rcvRing.elements) || fresh(rcvRing.elements))
      ensures heap.Valid() && View() == PushedInto(old(View()), seg)
    {
      hide Wrap32, Diff32, K.ParseData, RcvHeld, Represents, Ordered;
      if Diff32(seg.sn, Wrap32(rcvNxt + rcvWnd)) < 0 {
        acks := acks + [AckItem(seg.sn, seg.ts)];
        if Diff32(seg.sn, rcvNxt) >= 0 {
          var repeat := ParseData(seg.sn, seg.fragment);
        }
      }
    }

    /** One segment of a packet. */
    method Take(seg: Segment, regular: bool)
      requires Valid()
      modifies this`rmtWnd, this`sndBuf, this`sndUna, this`acks, this`rcvQueue, this`rcvNxt, this`tell, heap
      modifies rcvRing, rcvRing.elements, bufRing, bufRing.elements
      ensures rcvRing.elements == old(rcvRing.elements) || fresh(rcvRing.elements)
      ensures bufRing.elements == old(bufRing.elements)
      ensures Valid() && View() == Input(old(View()), seg, regular)
    {
      hide Wrap32, Diff32, Windows, Fits, K.ParseUna, K.ParseAck, PushedInto, Windowed, SndHeld, BufHeld, RcvHeld,
           Represents, Ordered;
      ghost var k := View();
      InputKeeps(k, seg, regular);
      InputFits(k, seg, regular);
      if regular { rmtWnd := seg.wnd; }
      UnaLeaves(View(), seg.una);
      TakeUna(seg.una);
      SameWindowed(k, View());
      match seg.cmd
      case Ack => ParseAck(seg.sn);
      case Push => TakePush(seg);
      case Wask => tell := true;
      case Wins =>
    }

    /** The segments of a packet up to the first malformed one, whose code is returned. */
    method Receive(packet: seq<byte>, regular: bool) returns (code: int)
      requires Valid()
      modifies this`rmtWnd, this`sndBuf, this`sndUna, this`acks, this`rcvQueue, this`rcvNxt, this`tell, heap
      modifies rcvRing, rcvRing.elements, bufRing, bufRing.elements
      ensures rcvRing.elements == old(rcvRing.elements) || fresh(rcvRing.elements)
      ensures bufRing.elements == old(bufRing.elements)
      ensures Valid()
      ensures code == if |packet| < Overhead(cfg) then -1 else Decode(cfg, packet).code
      ensures View() == InputAll(old(View()), Decode(cfg, packet).segs, regular)
    {
      hide Input, InputAll, ParseOne, Decode, Windows, Fits, Represents, Ordered, Queued;
      DecodeStep(cfg, packet, []);
      InputNone(View(), regular);
      if |packet| < Overhead(cfg) { return -1; }
      var data := packet;
      ghost var k := View();
      ghost var done: seq<Segment> := [];
      while |data| >= Overhead(cfg)
        invariant Valid() && View() == InputAll(k, done, regular)
        invariant rcvRing.elements == old(rcvRing.elements) || fresh(rcvRing.elements)
        invariant bufRing.elements == old(bufRing.elements)
        invariant Decode(cfg, packet) == Decoded(done + Decode(cfg, data).segs, Decode(cfg, data).code)
        decreases |data|
      {
        DecodeStep(cfg, data, done);
        match ParseOne(cfg, data)
        case Bad(bad) => return bad;
        case Fine(seg, next) =>
          InputAllAppend(k, done, seg, regular);
          Take(seg, regular);
          done := done + [seg];
          data := data[next..];
      }
      DecodeStep(cfg, data, done);
      code := 0;
    }

    // ---- Sending ----------------------------------------------------------------------------

    method Send(bytes: seq<byte>) returns (code: int)
      requires Valid()
      modifies this`sndQueue, sndRing, sndRing.elements
      ensures sndRing.elements == old(sndRing.elements) || fresh(sndRing.elements)
      ensures Valid() && View() == K.Send(old(View()), bytes) && code == SendCode(old(View()), bytes)
    {
      hide Fragments, Windows, Fits, Represents, Ordered, K.Send, Extended, Extension, SndHeld, BufHeld, RcvHeld;
      SendSteps(View(), bytes);
      SendKeeps(View(), bytes);
      SendFits(View(), bytes);
      if |bytes| == 0 { return -1; }
      var buffer := bytes;
      if stream {
        buffer := SndExtend(bytes);
        if |buffer| == 0 { return 0; }
      }
      var count := (|buffer| - 1) / mss + 1;
      CountBound(|buffer|, mss);
      if !stream && count > 255 { return -2; }
      Enqueue(buffer, count);
      code := 0;
    }

    /** Cuts the buffer into count fragments. */
    method Enqueue(bytes: seq<byte>, count: nat)
      requires SndHeld() && mss > 0 && bytes != [] && count == (|bytes| - 1) / mss + 1 && (stream || count <= 255)
      modifies this`sndQueue, sndRing, sndRing.elements
      ensures SndHeld() && (sndRing.elements == old(sndRing.elements) || fresh(sndRing.elements))
      ensures (stream || |bytes| <= 255 * mss) && sndQueue == old(sndQueue) + Fragments(bytes, mss, stream)
    {
      hide Fragments, SndHeld;
      CountBound(|bytes|, mss);
      var buffer := bytes;
      ghost var rest := Fragments(bytes, mss, stream);
      for i := 0 to count
        invariant SndHeld() && (sndRing.elements == old(sndRing.elements) || fresh(sndRing.elements))
        invariant sndQueue + rest == old(sndQueue) + Fragments(bytes, mss, stream)
        invariant i < count ==> buffer != [] && count - i == (|buffer| - 1) / mss + 1
                                && (stream || |buffer| <= 255 * mss)
        invariant i < count ==> rest == Fragments(buffer, mss, stream)
        invariant i == count ==> rest == []
      {
        var size := if |buffer| > mss then mss else |buffer|;
        FragmentsStep(buffer, mss, stream, count - i);
        SndPush(Fragment(if stream then 0 else count - i - 1, buffer[..size]));
        buffer := buffer[size..];
        rest := rest[1..];
      }
    }

    /** Makes room for a segment and encodes it there. */
    method Put(p: Packing, seg: Segment, ghost pending: seq<Segment>, ghost segs: seq<Segment>)
      returns (p': Packing, ghost pending': seq<Segment>)
      requires Packs(cfg, reserve, mtu, p, pending, segs)
      requires |seg.fragment.data| <= mss && mtu == |reserve| + Overhead(cfg) + mss && mtu < 0x1_0000_0000
      ensures Packs(cfg, reserve, mtu, p', pending', segs + [seg])
    {
      hide Packs, Encode;
      var need := Overhead(cfg) + |seg.fragment.data|;
      pending' := MakeSpacePacks(cfg, reserve, mtu, p, pending, segs, need);
      p' := MakeSpace(reserve, mtu, p, need);
      EncodePacks(cfg, reserve, mtu, p', pending', segs, seg);
      p', pending' := p'.(current := p'.current + Encode(cfg, seg)), pending' + [seg];
    }

    method PutAcks(p: Packing, ghost pending: seq<Segment>) returns (p': Packing, ghost pending': seq<Segment>)
      requires RcvHeld() && Packs(cfg, reserve, mtu, p, pending, [])
      requires mtu == |reserve| + Overhead(cfg) + mss && mtu < 0x1_0000_0000
      ensures Packs(cfg, reserve, mtu, p', pending', AckSegments(View(), acks))
    {
      hide Packs, AckSegments, Diff32, RcvHeld;
      p', pending' := p, pending;
      var wnd := WndUnused();
      ghost var segs: seq<Segment> := [];
      AckNone(View(), segs);
      for i := 0 to |acks|
        invariant Packs(cfg, reserve, mtu, p', pending', segs)
        invariant segs + AckSegments(View(), acks[i..]) == AckSegments(View(), acks)
      {
        AckStep(View(), acks, i, segs);
        pending' := MakeSpacePacks(cfg, reserve, mtu, p', pending', segs, Overhead(cfg));
        p' := MakeSpace(reserve, mtu, p', Overhead(cfg));
        if Diff32(acks[i].sn, rcvNxt) >= 0 || |acks| - 1 == i {
          var seg := Segment(Ack, wnd, acks[i].ts, acks[i].sn, rcvNxt, Fragment(0, []));
          p', pending' := Put(p', seg, pending', segs);
          segs := segs + [seg];
        }
      }
      AckNone(View(), segs);
    }

    function WndUnused(): (n: u16)
      requires RcvHeld()
      reads this, heap, rcvRing, rcvRing.elements
      ensures n == K.WndUnused(View())
    {
      if RcvLen() < rcvWnd then (rcvWnd - RcvLen()) % 0x1_0000 else 0
    }

    /** Numbers what the window lets through. */
    method FillWindow(cwnd: nat)
      requires Apart() && SndHeld() && BufHeld()
      modifies this`sndQueue, this`sndBuf, this`sndNxt, sndRing, sndRing.elements, bufRing, bufRing.elements
      ensures Apart() && SndHeld() && BufHeld() && sndRing.elements == old(sndRing.elements)
      ensures bufRing.elements == old(bufRing.elements) || fresh(bufRing.elements)
      ensures View() == K.FillWindow(old(View()), cwnd)
    {
      hide K.FillWindow, Diff32, Wrap32, SndHeld, BufHeld;
      ghost var k := View();
      while Diff32(sndNxt, Wrap32(sndUna + cwnd)) < 0 && SndLen() > 0
        invariant Apart() && SndHeld() && BufHeld() && sndRing.elements == old(sndRing.elements)
        invariant bufRing.elements == old(bufRing.elements) || fresh(bufRing.elements)
        invariant K.FillWindow(View(), cwnd) == K.FillWindow(k, cwnd)
        decreases |sndQueue|
      {
        FillStep(View(), cwnd);
        var fragment := SndPop();
        BufPush(Outgoing(sndNxt, fragment, false));
        sndNxt := Wrap32(sndNxt + 1);
      }
      FillStep(View(), cwnd);
    }

    method PutData(p: Packing, due: map<u32, u32>, ghost pending: seq<Segment>, ghost before: seq<Segment>)
      returns (p': Packing, ghost pending': seq<Segment>)
      requires RcvHeld() && BufHeld() && Packs(cfg, reserve, mtu, p, pending, before) && Fits(View())
      requires mtu == |reserve| + Overhead(cfg) + mss && mtu < 0x1_0000_0000
      ensures Packs(cfg, reserve, mtu, p', pending', before + DataSegments(View(), sndBuf, due))
    {
      hide Packs, DataSegments, RcvHeld, BufHeld;
      p', pending' := p, pending;
      var wnd := WndUnused();
      ghost var segs := before;
      DataNone(View(), due, before);
      for i := 0 to BufLen()
        invariant Packs(cfg, reserve, mtu, p', pending', segs)
        invariant segs + DataSegments(View(), sndBuf[i..], due) == before + DataSegments(View(), sndBuf, due)
      {
        DataStep(View(), sndBuf, i, due, segs);
        var o := BufItem(i);
        if !o.acked && o.sn in due {
          var seg := Segment(Push, wnd, due[o.sn], o.sn, rcvNxt, o.fragment);
          p', pending' := Put(p', seg, pending', segs);
          segs := segs + [seg];
        }
      }
      DataNone(View(), due, segs);
    }

    /** The window probe and the window announcement. */
    method PutProbes(p: Packing, probe: bool, last: AckItem, ghost pending: seq<Segment>, ghost segs: seq<Segment>)
      returns (p': Packing, ghost pending': seq<Segment>)
      requires RcvHeld() && Packs(cfg, reserve, mtu, p, pending, segs)
      requires mtu == |reserve| + Overhead(cfg) + mss && mtu < 0x1_0000_0000
      ensures Packs(cfg, reserve, mtu, p', pending', segs + Probes(View(), probe, last))
    {
      hide Packs, RcvHeld;
      p', pending' := p, pending;
      ghost var done := segs;
      if probe {
        var ask := Segment(Wask, WndUnused(), last.ts, last.sn, rcvNxt, Fragment(0, []));
        p', pending' := Put(p', ask, pending', done);
        done := done + [ask];
      }
      if tell {
        var wins := Segment(Wins, WndUnused(), last.ts, last.sn, rcvNxt, Fragment(0, []));
        p', pending' := Put(p', wins, pending', done);
        done := done + [wins];
      }
      assert done == segs + Probes(View(), probe, last);
    }

    /** All that follows the acknowledgements. */
    method PutRest(p: Packing, timing: Timing, last: AckItem, ghost pending: seq<Segment>, ghost segs: seq<Segment>)
      returns (p': Packing, ghost pending': seq<Segment>)
      requires Valid() && Packs(cfg, reserve, mtu, p, pending, segs)
      modifies this`acks, this`tell, this`sndQueue, this`sndBuf, this`sndNxt
      modifies sndRing, sndRing.elements, bufRing, bufRing.elements
      ensures sndRing.elements == old(sndRing.elements)
      ensures bufRing.elements == old(bufRing.elements) || fresh(bufRing.elements)
      ensures Queued()
      ensures View() == Filled(old(View()), timing)
      ensures Packs(cfg, reserve, mtu, p', pending',
                    segs + Probes(old(View()), timing.probe, last) + DataSegments(View(), sndBuf, timing.due))
    {
      hide Packs, AckSegments, DataSegments, K.FillWindow, Windows, Fits, Represents, Ordered, Probes, SndHeld,
           BufHeld, RcvHeld;
      FlushFits(View(), timing);
      p', pending' := PutProbes(p, timing.probe, last, pending, segs);
      ghost var probed := segs + Probes(View(), timing.probe, last);
      acks, tell := [], false;
      FillWindow(Min(timing.congestion, Min(sndWnd, rmtWnd)));
      p', pending' := PutData(p', timing.due, pending', probed);
    }

    /**
     * Hands packets to the output callback. Each is within the mtu and not empty, and what the peer decodes from
     * them, in order, is exactly what the state machine sends.
     */
    method Flush(timing: Timing) returns (packets: seq<seq<byte>>)
      requires Valid()
      modifies this`acks, this`tell, this`sndQueue, this`sndBuf, this`sndNxt, this`output
      modifies sndRing, sndRing.elements, bufRing, bufRing.elements
      ensures sndRing.elements == old(sndRing.elements)
      ensures bufRing.elements == old(bufRing.elements) || fresh(bufRing.elements)
      ensures Valid() && View() == K.Flush(old(View()), timing).k && output == old(output) + packets
      ensures forall i :: 0 <= i < |packets| ==> WellPacked(cfg, reserve, mtu, packets[i])
      ensures Unpacked(cfg, |reserve|, packets) == K.Flush(old(View()), timing).sent
    {
      hide Packs, AckSegments, DataSegments, K.FillWindow, K.Flush, Windows, Fits, Represents, Ordered, WellPacked,
           Unpacked, Probes, Filled, SndHeld, BufHeld, RcvHeld, Apart;
      ghost var k := View();
      FlushKeeps(k, timing);
      FlushFits(k, timing);
      FlushParts(k, timing);
      NothingPacked(cfg, reserve, mtu);
      var p, pending := PutAcks(Packing([], reserve), []);
      ghost var segs := AckSegments(k, acks);
      var last := if |acks| == 0 then AckItem(0, 0) else acks[|acks| - 1];
      if !timing.ackOnly {
        p, pending := PutRest(p, timing, last, pending, segs);
        segs := K.Flush(k, timing).sent;
      }
      acks := [];
      LastPacket(cfg, reserve, mtu, p, pending, segs);
      packets := p.packets + if |p.current| > |reserve| then [p.current] else [];
      output := output + packets;
    }
  }

  lemma NewKeeps(mss: nat, stream: bool, sndWnd: nat, rcvWnd: nat)
    requires mss > 0 && rcvWnd <= MAX_WINDOW
    ensures Windows(NewKcp(mss, stream, sndWnd, rcvWnd)) && Fits(NewKcp(mss, stream, sndWnd, rcvWnd))
  {
    WrapNear(0);
  }

  lemma JoinedNext(q: seq<Fragment>, i: nat)
    requires i < |q|
    ensures Joined(q[..i + 1]) == Joined(q[..i]) + q[i].data
  {
    assert q[..i + 1] == q[..i] + [q[i]];
    JoinedAppend(q[..i], [q[i]]);
    assert Joined([q[i]][1..]) == [];
  }

  lemma FirstNext(q: seq<Fragment>)
    ensures q == [] ==> FirstMessage(q) == 0
    ensures q != [] && q[0].frg == 0 ==> FirstMessage(q) == 1
    ensures q != [] && q[0].frg != 0 ==> FirstMessage(q) == 1 + FirstMessage(q[1..])
  {
  }

  lemma JoinedNone(q: seq<Fragment>)
    ensures Joined(q[..0]) == [] && q[0..] == q
  {
  }

  lemma WindowsWindowed(k: Kcp)
    requires Windows(k)
    ensures Windowed(k)
    ensures forall q :: Windowed(k.(rcvQueue := q))
  {
    hide Wrap32;
  }

  lemma WindowBound(k: Kcp)
    requires Windowed(k)
    ensures k.rcvWnd <= MAX_WINDOW
  {
  }

  lemma RefillLeavesSends(k: Kcp)
    requires Windowed(k)
    ensures Refill(k).sndQueue == k.sndQueue && Refill(k).sndBuf == k.sndBuf && Refill(k).mss == k.mss
  {
    hide Wrap32;
    RefillKeeps(k);
  }

  lemma FitsSame(k: Kcp, k': Kcp)
    requires Fits(k) && k'.mss == k.mss && k'.sndQueue == k.sndQueue && k'.sndBuf == k.sndBuf
    ensures Fits(k')
  {
  }

  /** The receive window is a small part of the half circle from rcv_nxt. */
  lemma WindowInRange(k: Kcp, s: seq<Item>, m: map<u32, Fragment>)
    requires Windowed(k) && Represents(s, m) && m == k.rcvBuf
    ensures InRange(s, k.rcvNxt)
    ensures s != [] ==> m != map[]
  {
    hide Wrap32;
    if s != [] { assert s[0].sn in m; }
  }

  lemma PushInRange(k: Kcp, s: seq<Item>, item: Item)
    requires InRange(s, k.rcvNxt) && Wrap32(item.sn - k.rcvNxt) < k.rcvWnd <= MAX_WINDOW
    ensures InRange(s + [item], k.rcvNxt)
  {
    hide Wrap32;
  }

  lemma PopInRange(k: Kcp, s: seq<Item>, m: map<u32, Fragment>, item: Item)
    requires Windowed(k) && Represents(s, m) && m == k.rcvBuf - {item.sn} && item.sn in k.rcvBuf
    ensures InRange(s + [item], k.rcvNxt)
  {
    hide Wrap32;
  }

  lemma InsertWindowed(k: Kcp, sn: u32, fragment: Fragment)
    requires Windowed(k) && Wrap32(sn - k.rcvNxt) < k.rcvWnd
    ensures Windowed(k.(rcvBuf := k.rcvBuf[sn := fragment]))
  {
    hide Wrap32;
  }

  lemma NothingHeld(s: seq<Item>, m: map<u32, Fragment>)
    requires Represents(s, m) && s == []
    ensures m == map[]
  {
  }

  /** The least number in the window is rcv_nxt, if rcv_nxt is held at all. */
  lemma LeastIsNext(k: Kcp, item: Item)
    requires item.sn in k.rcvBuf && forall sn :: sn in k.rcvBuf ==> Rank(item.sn, k.rcvNxt) <= Rank(sn, k.rcvNxt)
    ensures k.rcvNxt in k.rcvBuf <==> item.sn == k.rcvNxt
  {
    hide Wrap32;
    if k.rcvNxt in k.rcvBuf {
      WrapNear(0);
      WrapNear(item.sn - k.rcvNxt);
    }
  }

  lemma RefillStep(k: Kcp)
    requires Windowed(k)
    ensures if k.rcvNxt in k.rcvBuf && |k.rcvQueue| < k.rcvWnd then
              var k' := k.(rcvQueue := k.rcvQueue + [k.rcvBuf[k.rcvNxt]], rcvBuf := k.rcvBuf - {k.rcvNxt},
                           rcvNxt := Wrap32(k.rcvNxt + 1));
              Refill(k) == Refill(k') && Windowed(k') && |k'.rcvBuf| < |k.rcvBuf|
            else Refill(k) == k
  {
    hide Wrap32;
    if k.rcvNxt in k.rcvBuf && |k.rcvQueue| < k.rcvWnd {
      var m' := k.rcvBuf - {k.rcvNxt};
      forall sn | sn in m' ensures Wrap32(sn - Wrap32(k.rcvNxt + 1)) < k.rcvWnd {
        AdvanceInWindow(sn, k.rcvNxt);
      }
      assert m'.Keys == k.rcvBuf.Keys - {k.rcvNxt};
      assert |m'.Keys| == |k.rcvBuf.Keys| - 1;
    }
  }

  /** The segments of a packet, one after the other. */
  function InputAll(k: Kcp, segs: seq<Segment>, regular: bool): Kcp
    decreases |segs|
  {
    if segs == [] then k else InputAll(Input(k, segs[0], regular), segs[1..], regular)
  }

  lemma {:induction false} InputAllAppend(k: Kcp, segs: seq<Segment>, seg: Segment, regular: bool)
    ensures InputAll(k, segs + [seg], regular) == Input(InputAll(k, segs, regular), seg, regular)
    decreases |segs|
  {
    hide Input;
    if segs == [] {
      assert InputAll(Input(k, seg, regular), [seg][1..], regular) == Input(k, seg, regular);
    } else {
      assert (segs + [seg])[1..] == segs[1..] + [seg];
      InputAllAppend(Input(k, segs[0], regular), segs[1..], seg, regular);
    }
  }

  lemma MarkNone(buf: seq<Outgoing>, sn: u32)
    ensures buf[..0] + MarkAcked(buf[0..], sn) == MarkAcked(buf, sn)
            && buf[..|buf|] + MarkAcked(buf[|buf|..], sn) == buf
  {
    hide Diff32;
    assert buf[0..] == buf;
  }

  lemma MarkStep(buf: seq<Outgoing>, sn: u32, i: nat)
    requires i < |buf| && MarkAcked(buf, sn) == buf[..i] + MarkAcked(buf[i..], sn)
    ensures MarkAcked(buf, sn) ==
            if buf[i].sn == sn then buf[i := buf[i].(acked := true, fragment := buf[i].fragment.(data := []))]
            else if Diff32(sn, buf[i].sn) < 0 then buf
            else buf[..i + 1] + MarkAcked(buf[i + 1..], sn)
  {
    hide Diff32, MarkAcked;
    var rest := buf[i..];
    MarkCases(rest, sn);
    assert rest[0] == buf[i] && rest[1..] == buf[i + 1..];
    if buf[i].sn == sn {
      Rejoined(buf, i, buf[i].(acked := true, fragment := buf[i].fragment.(data := [])));
    } else if Diff32(sn, buf[i].sn) >= 0 {
      Rejoined(buf, i, buf[i]);
      assert buf[..i] + ([buf[i]] + MarkAcked(buf[i + 1..], sn)) == buf[..i + 1] + MarkAcked(buf[i + 1..], sn);
    }
  }

  lemma Rejoined(buf: seq<Outgoing>, i: nat, x: Outgoing)
    requires i < |buf|
    ensures buf[..i] + ([x] + buf[i + 1..]) == buf[i := x] && buf[..i + 1] == buf[..i] + [buf[i]]
            && buf[..i] + buf[i..] == buf
  {
  }

  lemma MarkCases(buf: seq<Outgoing>, sn: u32)
    requires buf != []
    ensures MarkAcked(buf, sn) ==
            if buf[0].sn == sn then [buf[0].(acked := true, fragment := buf[0].fragment.(data := []))] + buf[1..]
            else if Diff32(sn, buf[0].sn) < 0 then buf
            else [buf[0]] + MarkAcked(buf[1..], sn)
  {
    hide Diff32;
  }

  lemma UnaLeaves(k: Kcp, una: u32)
    ensures var k' := K.ParseUna(k, una); k'.rcvWnd == k.rcvWnd && k'.rcvNxt == k.rcvNxt && k'.rcvBuf == k.rcvBuf
  {
  }

  lemma SameWindowed(k: Kcp, k': Kcp)
    requires Windows(k) && k'.rcvWnd == k.rcvWnd && k'.rcvNxt == k.rcvNxt && k'.rcvBuf == k.rcvBuf
    ensures Windowed(k')
  {
    hide Wrap32;
  }

  lemma {:induction false} MarkFits(buf: seq<Outgoing>, sn: u32, mss: nat)
    requires forall i :: 0 <= i < |buf| ==> |buf[i].fragment.data| <= mss
    ensures forall i :: 0 <= i < |buf| ==> |MarkAcked(buf, sn)[i].fragment.data| <= mss
  {
    hide Diff32;
    if buf != [] && buf[0].sn != sn {
      MarkFits(buf[1..], sn, mss);
    }
  }

  lemma InputFits(k: Kcp, seg: Segment, regular: bool)
    requires Fits(k) && Windows(k)
    ensures Fits(Input(k, seg, regular))
  {
    hide Wrap32, Diff32, Refill, Windowed, MarkAcked, UnaCount, Windows;
    var k1 := ParseUna(if regular then k.(rmtWnd := seg.wnd) else k, seg.una);
    MarkFits(k1.sndBuf, seg.sn, k.mss);
    var k2 := k1.(acks := k1.acks + [AckItem(seg.sn, seg.ts)]);
    SameWindowed(k, k2);
    PushLeavesSends(k2, seg.sn, seg.fragment);
  }

  lemma PushLeavesSends(k: Kcp, sn: u32, fragment: Fragment)
    requires Windowed(k)
    ensures var k' := ParseData(k, sn, fragment); k'.sndQueue == k.sndQueue && k'.sndBuf == k.sndBuf && k'.mss == k.mss
  {
    hide Wrap32, Diff32, Refill, Windowed;
    WindowBound(k);
    WindowTest(sn, k.rcvNxt, k.rcvWnd);
    if Wrap32(sn - k.rcvNxt) < k.rcvWnd {
      if sn in k.rcvBuf {
        RefillLeavesSends(k);
      } else {
        InsertWindowed(k, sn, fragment);
        RefillLeavesSends(k.(rcvBuf := k.rcvBuf[sn := fragment]));
      }
    }
  }

  lemma InputNone(k: Kcp, regular: bool)
    ensures InputAll(k, [], regular) == k
  {
  }

  lemma DecodeStep(cfg: Config, data: seq<byte>, done: seq<Segment>)
    ensures [] + Decode(cfg, data).segs == Decode(cfg, data).segs
    ensures if |data| < Overhead(cfg) then done + Decode(cfg, data).segs == done && Decode(cfg, data).code == 0
            else if ParseOne(cfg, data).Bad?
                 then done + Decode(cfg, data).segs == done && Decode(cfg, data).code == ParseOne(cfg, data).code
            else var rest := Decode(cfg, data[ParseOne(cfg, data).next..]);
                 done + Decode(cfg, data).segs == done + [ParseOne(cfg, data).seg] + rest.segs
                 && Decode(cfg, data).code == rest.code
  {
    hide ParseOne;
    assert done + [] == done;
    if |data| >= Overhead(cfg) && ParseOne(cfg, data).Fine? {
      var p := ParseOne(cfg, data);
      assert done + ([p.seg] + Decode(cfg, data[p.next..]).segs) == done + [p.seg] + Decode(cfg, data[p.next..]).segs;
    }
  }

  // ---- Send -----------------------------------------------------------------------------------

  /** More than 255 fragments is more than 255 segments' worth of bytes. */
  lemma CountBound(n: nat, mss: nat)
    requires mss > 0 && n > 0
    ensures (n - 1) / mss + 1 > 255 <==> n > 255 * mss
    ensures (n - 1) / mss >= 0
  {
    var q, r := (n - 1) / mss, (n - 1) % mss;
    assert n - 1 == q * mss + r;
    if q >= 255 { TimesAtLeast(q - 254, mss); assert q * mss == (q - 254) * mss + 254 * mss; }
    if q < 255 { assert 254 * mss == q * mss + (254 - q) * mss; if q < 254 { TimesAtLeast(254 - q, mss); } }
    if q < 0 { TimesAtLeast(-q, mss); }
  }

  lemma FragmentsStep(bytes: seq<byte>, mss: nat, stream: bool, count: nat)
    requires mss > 0 && bytes != [] && count == (|bytes| - 1) / mss + 1
             && (stream || (|bytes| <= 255 * mss && count <= 255))
    ensures var fs := Fragments(bytes, mss, stream);
            fs != [] &&
            if |bytes| <= mss then count == 1 && fs == [Fragment(0, bytes)] && bytes[..|bytes|] == bytes
            else count > 1 && fs[0] == Fragment(if stream then 0 else count - 1, bytes[..mss])
                 && fs[1..] == Fragments(bytes[mss..], mss, stream)
                 && count - 1 == (|bytes[mss..]| - 1) / mss + 1
  {
    if |bytes| <= mss {
      ModUnique(|bytes| - 1, mss, 0, |bytes| - 1);
    } else {
      OneLess(|bytes|, mss);
      CountBound(|bytes[mss..]|, mss);
    }
  }

  lemma SendSteps(k: Kcp, bytes: seq<byte>)
    requires k.mss > 0
    ensures var k' := Send(k, bytes);
            if bytes == [] || (!k.stream && |bytes| > 255 * k.mss) then k' == k
            else var rest := bytes[Extension(k, bytes)..];
                 k' == if rest == [] then Extended(k, bytes)
                       else k.(sndQueue := Extended(k, bytes).sndQueue + Fragments(rest, k.mss, k.stream))
    ensures !k.stream ==> bytes[Extension(k, bytes)..] == bytes && Extended(k, bytes) == k
    ensures Extended(k, bytes) == k.(sndQueue := Extended(k, bytes).sndQueue)
  {
    hide Fragments;
  }

  lemma SendFits(k: Kcp, bytes: seq<byte>)
    requires k.mss > 0 && Fits(k)
    ensures Fits(Send(k, bytes))
  {
    hide Fragments;
    if SendCode(k, bytes) == 0 {
      var rest := bytes[Extension(k, bytes)..];
      FragmentsJoin(rest, k.mss, k.stream);
      var k' := Extended(k, bytes);
      assert Fits(k');
    }
  }

  // ---- Flush ----------------------------------------------------------------------------------

  lemma AckStep(k: Kcp, acks: seq<AckItem>, i: nat, segs: seq<Segment>)
    requires i < |acks|
    ensures segs + AckSegments(k, acks[i..]) ==
            (if Diff32(acks[i].sn, k.rcvNxt) >= 0 || |acks| - 1 == i
             then segs + [Segment(Ack, WndUnused(k), acks[i].ts, acks[i].sn, k.rcvNxt, Fragment(0, []))] else segs)
            + AckSegments(k, acks[i + 1..])
  {
    hide Diff32;
    assert acks[i..][1..] == acks[i + 1..];
  }

  lemma AckNone(k: Kcp, segs: seq<Segment>)
    ensures segs + AckSegments(k, k.acks[|k.acks|..]) == segs
            && [] + AckSegments(k, k.acks[0..]) == AckSegments(k, k.acks)
  {
  }

  lemma DataStep(k: Kcp, buf: seq<Outgoing>, i: nat, due: map<u32, u32>, segs: seq<Segment>)
    requires i < |buf|
    ensures segs + DataSegments(k, buf[i..], due) ==
            (if !buf[i].acked && buf[i].sn in due
             then segs + [Segment(Push, WndUnused(k), due[buf[i].sn], buf[i].sn, k.rcvNxt, buf[i].fragment)] else segs)
            + DataSegments(k, buf[i + 1..], due)
  {
    assert buf[i..][1..] == buf[i + 1..];
  }

  lemma DataNone(k: Kcp, due: map<u32, u32>, segs: seq<Segment>)
    ensures segs + DataSegments(k, k.sndBuf[|k.sndBuf|..], due) == segs && k.sndBuf[0..] == k.sndBuf
  {
  }

  lemma FillStep(k: Kcp, cwnd: nat)
    ensures K.FillWindow(k, cwnd) ==
            if Diff32(k.sndNxt, Wrap32(k.sndUna + cwnd)) >= 0 || k.sndQueue == [] then k
            else K.FillWindow(k.(sndQueue := k.sndQueue[1..],
                                 sndBuf := k.sndBuf + [Outgoing(k.sndNxt, k.sndQueue[0], false)],
                                 sndNxt := Wrap32(k.sndNxt + 1)), cwnd)
  {
    hide Diff32, Wrap32;
  }

  lemma {:induction false} FillFits(k: Kcp, cwnd: nat)
    requires Fits(k)
    ensures Fits(K.FillWindow(k, cwnd)) && K.FillWindow(k, cwnd).mss == k.mss
    decreases |k.sndQueue|
  {
    hide Diff32, Wrap32;
    FillStep(k, cwnd);
    if Diff32(k.sndNxt, Wrap32(k.sndUna + cwnd)) < 0 && k.sndQueue != [] {
      FillFits(k.(sndQueue := k.sndQueue[1..], sndBuf := k.sndBuf + [Outgoing(k.sndNxt, k.sndQueue[0], false)],
                  sndNxt := Wrap32(k.sndNxt + 1)), cwnd);
    }
  }

  function Probes(k: Kcp, probe: bool, last: AckItem): seq<Segment> {
    (if probe then [Segment(Wask, WndUnused(k), last.ts, last.sn, k.rcvNxt, Fragment(0, []))] else [])
    + if k.tell then [Segment(Wins, WndUnused(k), last.ts, last.sn, k.rcvNxt, Fragment(0, []))] else []
  }

  function Filled(k: Kcp, timing: Timing): Kcp {
    K.FillWindow(k.(acks := [], tell := false), Min(timing.congestion, Min(k.sndWnd, k.rmtWnd)))
  }

  lemma {:induction false} FillLeavesAcks(k: Kcp, cwnd: nat)
    ensures K.FillWindow(k, cwnd).acks == k.acks
    decreases |k.sndQueue|
  {
    hide Diff32, Wrap32;
    FillStep(k, cwnd);
    if Diff32(k.sndNxt, Wrap32(k.sndUna + cwnd)) < 0 && k.sndQueue != [] {
      FillLeavesAcks(k.(sndQueue := k.sndQueue[1..], sndBuf := k.sndBuf + [Outgoing(k.sndNxt, k.sndQueue[0], false)],
                        sndNxt := Wrap32(k.sndNxt + 1)), cwnd);
    }
  }

  lemma FlushParts(k: Kcp, timing: Timing)
    ensures var last := if k.acks == [] then AckItem(0, 0) else k.acks[|k.acks| - 1];
            var k2 := Filled(k, timing);
            k2.acks == [] &&
            K.Flush(k, timing) ==
            if timing.ackOnly then Flushed(k.(acks := []), AckSegments(k, k.acks))
            else Flushed(k2, AckSegments(k, k.acks) + Probes(k, timing.probe, last)
                         + DataSegments(k2, k2.sndBuf, timing.due))
  {
    hide K.FillWindow, AckSegments, DataSegments;
    FillLeavesAcks(k.(acks := [], tell := false), Min(timing.congestion, Min(k.sndWnd, k.rmtWnd)));
    var last := if k.acks == [] then AckItem(0, 0) else k.acks[|k.acks| - 1];
    var ask := if timing.probe then [Segment(Wask, WndUnused(k), last.ts, last.sn, k.rcvNxt, Fragment(0, []))] else [];
    var tell := if k.tell then [Segment(Wins, WndUnused(k), last.ts, last.sn, k.rcvNxt, Fragment(0, []))] else [];
    assert AckSegments(k, k.acks) + ask + tell == AckSegments(k, k.acks) + (ask + tell);
  }

  lemma FlushFits(k: Kcp, timing: Timing)
    requires Fits(k)
    ensures Fits(K.Flush(k, timing).k)
    ensures Fits(Filled(k, timing))
  {
    hide K.FillWindow;
    FillFits(k.(acks := [], tell := false), Min(timing.congestion, Min(k.sndWnd, k.rmtWnd)));
  }

  lemma NothingPacked(cfg: Config, reserve: seq<byte>, mtu: nat)
    requires |reserve| <= mtu
    ensures Packs(cfg, reserve, mtu, Packing([], reserve), [], [])
  {
  }

  lemma LastPacket(cfg: Config, reserve: seq<byte>, mtu: nat, p: Packing, pending: seq<Segment>, segs: seq<Segment>)
    requires Packs(cfg, reserve, mtu, p, pending, segs) && |reserve| <= mtu
    ensures var packets := p.packets + if |p.current| > |reserve| then [p.current] else [];
            && (forall i :: 0 <= i < |packets| ==> WellPacked(cfg, reserve, mtu, packets[i]))
            && Unpacked(cfg, |reserve|, packets) == segs
  {
    hide Unpacked, Decode, Encode;
    if |p.current| > |reserve| {
      OutputPacks(cfg, reserve, mtu, p, pending, segs);
    } else {
      if pending != [] { EncodingsSome(cfg, pending); }
      assert p.packets + [] == p.packets;
    }
  }
}
