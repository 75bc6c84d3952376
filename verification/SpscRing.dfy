/**
 * The single-producer single-consumer packet ring in shared memory, as interleaved steps of its two sides.
 * A step touches shared memory once: it loads a cursor, writes a header, copies a byte or publishes a cursor.
 */
module SpscRing {
  import opened Words

  const WORD64: int := 0x1_0000_0000_0000_0000
  const HEADER: int := 4
  const MAX_PACKET: int := 0xffff_ffff

  function Wrap64(x: int): u64 {
    x % 0x1_0000_0000_0000_0000
  }

  /** The data area is a power of two from 8 bytes to 2^62. */
  ghost predicate GoodSize(size: nat) {
    exists k :: 3 <= k <= 62 && size == Pow2(k)
  }

  /** The offset of a cursor in the data area: cursor & mask, for a power of two. */
  function Slot(x: nat, size: nat): (r: nat)
    requires size > 0
    ensures r < size
  {
    x % size
  }

  /** Header, payload and padding to a multiple of four. */
  function RecordSize(length: nat): nat {
    (HEADER + length + 3) / 4 * 4
  }

  // ---- State ----------------------------------------------------------------------------------

  datatype WriteOutcome = NotWritten | Rejected | Full | Written
  datatype ReadOutcome = NotRead | Empty | Corrupt | TooSmall(needed: nat) | Delivered(packet: seq<byte>)

  datatype ProducerPc =
    | PIdle
    | PAttachTail
    | PAttachHead
    | PDetached
    | PReload(data: seq<byte>)
    | PLoad(data: seq<byte>)
    | PHeader(data: seq<byte>)
    | PCopy(data: seq<byte>, i: nat)

  datatype ConsumerPc =
    | CIdle
    | CAttachTail
    | CAttachHead
    | CDetached
    | CLoad(room: nat)
    | CHeader(room: nat, used: u64)
    | CReload(room: nat, length: nat)
    | CCopy(length: nat, out: seq<byte>)

  datatype Producer = Producer(head: u64, cachedTail: u64, pc: ProducerPc, outcome: WriteOutcome)
  datatype Consumer = Consumer(tail: u64, cachedHead: u64, pc: ConsumerPc, outcome: ReadOutcome)

  /** sent and received are the packets published and delivered; h, t, pt, ch the cursors without wrap-around. */
  datatype History = History(sent: seq<seq<byte>>, received: seq<seq<byte>>, h: nat, t: nat, pt: nat, ch: nat)

  datatype State = State(buf: seq<byte>, head: u64, tail: u64, p: Producer, c: Consumer, past: History)

  datatype Action = AttachProducer | AttachConsumer | Write(data: seq<byte>) | Produce | Read(room: nat) | Consume

  // ---- The producer ---------------------------------------------------------------------------

  /** What WritePacket does once it knows how much of the ring is in use. */
  function AfterUsed(s: State, data: seq<byte>, used: u64): ProducerPc {
    if used <= |s.buf| && |s.buf| - used >= RecordSize(|data|) then PHeader(data) else PLoad(data)
  }

  function BeginWrite(s: State, data: seq<byte>): State {
    if data == [] || |data| > MAX_PACKET || |data| > |s.buf| / 2 then
      s.(p := s.p.(outcome := Rejected))
    else
      var used := Wrap64(s.p.head - s.p.cachedTail);
      s.(p := s.p.(outcome := NotWritten, pc := if used > |s.buf| then PReload(data) else AfterUsed(s, data, used)))
  }

  /** The offset of byte i of a payload whose record starts at pos. */
  function DataAt(pos: nat, i: nat, size: nat): nat
    requires pos + HEADER + i < 2 * size
  {
    if pos + HEADER + i < size then pos + HEADER + i else pos + HEADER + i - size
  }

  function HeaderAt(buf: seq<byte>, pos: nat): nat
    requires pos + 4 <= |buf|
  {
    FromLE(buf[pos..pos + 4])
  }

  function StepProducer(s: State): State
    requires |s.buf| >= 8
  {
    var size := |s.buf|;
    var pos := Slot(s.p.head, size);
    match s.p.pc
    case PIdle => s
    case PDetached => s
    case PAttachTail =>
      s.(p := s.p.(cachedTail := s.tail, pc := PAttachHead), past := s.past.(pt := s.past.t))
    case PAttachHead =>
      s.(p := s.p.(head := s.head, pc := if Wrap64(s.head - s.p.cachedTail) > size then PDetached else PIdle))
    case PReload(data) =>
      var s' := s.(p := s.p.(cachedTail := s.tail), past := s.past.(pt := s.past.t));
      var used := Wrap64(s.p.head - s.tail);
      if used > size then s'.(p := s'.p.(pc := PIdle, outcome := Full))
      else s'.(p := s'.p.(pc := AfterUsed(s, data, used)))
    case PLoad(data) =>
      var s' := s.(p := s.p.(cachedTail := s.tail), past := s.past.(pt := s.past.t));
      var used := Wrap64(s.p.head - s.tail);
      if used > size || size - used < RecordSize(|data|) then s'.(p := s'.p.(pc := PIdle, outcome := Full))
      else s'.(p := s'.p.(pc := PHeader(data)))
    case PHeader(data) =>
      if pos + 4 > size then s else
      s.(buf := s.buf[..pos] + ToLE(|data|, 4) + s.buf[pos + 4..], p := s.p.(pc := PCopy(data, 0)))
    case PCopy(data, i) =>
      if i < |data| then
        if pos + HEADER + i >= 2 * size then s else
        s.(buf := s.buf[DataAt(pos, i, size) := data[i]], p := s.p.(pc := PCopy(data, i + 1)))
      else
        var next := Wrap64(s.p.head + RecordSize(|data|));
        s.(p := s.p.(head := next, pc := PIdle, outcome := Written), head := next,
           past := s.past.(sent := s.past.sent + [data], h := s.past.h + RecordSize(|data|)))
  }

  // ---- The consumer ---------------------------------------------------------------------------

  function BeginRead(s: State, room: nat): State {
    var used := Wrap64(s.c.cachedHead - s.c.tail);
    s.(c := s.c.(outcome := NotRead,
                 pc := if used > |s.buf| || used < HEADER then CLoad(room) else CHeader(room, used)))
  }

  /** The end of ReadPacket's checks: a caller's buffer that is too small leaves the packet in place. */
  function BeginCopy(c: Consumer, room: nat, length: nat): Consumer {
    if room < length then c.(pc := CIdle, outcome := TooSmall(length)) else c.(pc := CCopy(length, []))
  }

  function StepConsumer(s: State): State
    requires |s.buf| >= 8
  {
    var size := |s.buf|;
    var pos := Slot(s.c.tail, size);
    match s.c.pc
    case CIdle => s
    case CDetached => s
    case CAttachTail =>
      s.(c := s.c.(tail := s.tail, pc := CAttachHead))
    case CAttachHead =>
      s.(c := s.c.(cachedHead := s.head, pc := if Wrap64(s.head - s.c.tail) > size then CDetached else CIdle),
         past := s.past.(ch := s.past.h))
    case CLoad(room) =>
      var s' := s.(c := s.c.(cachedHead := s.head), past := s.past.(ch := s.past.h));
      var used := Wrap64(s.head - s.c.tail);
      if used > size || used < HEADER then s'.(c := s'.c.(pc := CIdle, outcome := Empty))
      else s'.(c := s'.c.(pc := CHeader(room, used)))
    case CHeader(room, used) =>
      if pos + 4 > size then s else
      var length := HeaderAt(s.buf, pos);
      if length == 0 || length > size / 2 then s.(c := s.c.(pc := CIdle, outcome := Corrupt))
      else if used < RecordSize(length) then s.(c := s.c.(pc := CReload(room, length)))
      else s.(c := BeginCopy(s.c, room, length))
    case CReload(room, length) =>
      var s' := s.(c := s.c.(cachedHead := s.head), past := s.past.(ch := s.past.h));
      var used := Wrap64(s.head - s.c.tail);
      if used > size || used < RecordSize(length) then s'.(c := s'.c.(pc := CIdle, outcome := Corrupt))
      else s'.(c := BeginCopy(s'.c, room, length))
    case CCopy(length, out) =>
      if |out| < length then
        if pos + HEADER + |out| >= 2 * size then s else
        s.(c := s.c.(pc := CCopy(length, out + [s.buf[DataAt(pos, |out|, size)]])))
      else
        var next := Wrap64(s.c.tail + RecordSize(length));
        s.(c := s.c.(tail := next, pc := CIdle, outcome := Delivered(out)), tail := next,
           past := s.past.(received := s.past.received + [out], t := s.past.t + RecordSize(length)))
  }

  // ---- Runs -----------------------------------------------------------------------------------

  /** RingBufferCreate and the first two contexts; new ones may take over from idle ones at any time. */
  function Start(memory: seq<byte>): State {
    State(memory, 0, 0, Producer(0, 0, PIdle, NotWritten), Consumer(0, 0, CIdle, NotRead),
          History([], [], 0, 0, 0, 0))
  }

  function Next(s: State, act: Action): State
    requires |s.buf| >= 8
  {
    match act
    case AttachProducer => if s.p.pc == PIdle then s.(p := Producer(0, 0, PAttachTail, NotWritten)) else s
    case AttachConsumer => if s.c.pc == CIdle then s.(c := Consumer(0, 0, CAttachTail, NotRead)) else s
    case Write(data) => if s.p.pc == PIdle then BeginWrite(s, data) else s
    case Produce => StepProducer(s)
    case Read(room) => if s.c.pc == CIdle then BeginRead(s, room) else s
    case Consume => StepConsumer(s)
  }

  // ---- Arithmetic -----------------------------------------------------------------------------

  /** A good size is a multiple of eight that divides 2^64 and leaves room below it. */
  lemma SizeFacts(size: nat) returns (m: nat)
    requires GoodSize(size)
    ensures 8 <= size && size % 8 == 0 && 4 * size <= WORD64 && m * size == WORD64
  {
    hide Pow2;
    var k :| 3 <= k <= 62 && size == Pow2(k);
    Pow2Values();
    Pow2Adds(3, k - 3);
    Pow2Adds(k, 62 - k);
    Pow2Adds(k, 64 - k);
    m := Pow2(64 - k);
    TimesAtLeast(Pow2(k - 3), 8);
    TimesAtLeast(Pow2(62 - k), size);
    assert size == Pow2(k - 3) * 8 + 0;
    ModUnique(size, 8, Pow2(k - 3), 0);
  }

  /** The wrapped cursor selects the same slot as the cursor without wrap-around. */
  lemma SlotOfWord(x: nat, size: nat)
    requires GoodSize(size)
    ensures size > 0 && Slot(Wrap64(x), size) == Slot(x, size)
  {
    var m := SizeFacts(size);
    ModOfMod(x, WORD64, m, size);
  }

  lemma SlotShift(x: nat, j: nat, size: nat)
    requires size > 0 && Slot(x, size) + j < 2 * size
    ensures Slot(x + j, size) == if Slot(x, size) + j < size then Slot(x, size) + j else Slot(x, size) + j - size
  {
    var q, r := x / size, x % size;
    assert x == q * size + r;
    if r + j < size {
      ModUnique(x + j, size, q, r + j);
    } else {
      assert (q + 1) * size == q * size + size;
      ModUnique(x + j, size, q + 1, r + j - size);
    }
  }

  /** Cursors less than a ring apart fall into different slots. */
  lemma SlotApart(x: nat, y: nat, size: nat)
    requires size > 0 && x < y < x + size
    ensures Slot(x, size) != Slot(y, size)
  {
    SlotShift(x, y - x, size);
  }

  /** A header never wraps round. */
  lemma SlotAligned(x: nat, size: nat)
    requires size > 0 && size % 4 == 0 && x % 4 == 0
    ensures Slot(x, size) % 4 == 0 && Slot(x, size) + 4 <= size
  {
    var q, r := x / size, x % size;
    assert x == q * size + r;
    var x4, s4 := x / 4, size / 4;
    assert q * size == q * s4 * 4;
    ModUnique(r, 4, x4 - q * s4, 0);
  }

  lemma RecordSizeFacts(n: nat)
    ensures RecordSize(n) % 4 == 0 && n + HEADER <= RecordSize(n) < n + HEADER + 4
  {
  }

  lemma WordDifference(x: nat, y: nat)
    requires 0 <= x - y < WORD64
    ensures Wrap64(Wrap64(x) - Wrap64(y)) == x - y
  {
    var k := x / WORD64 - y / WORD64;
    var d := Wrap64(x) - Wrap64(y);
    assert x - y == k * WORD64 + d;
    ModUnique(d, WORD64, -k, x - y);
  }

  lemma WordSum(x: nat, y: nat)
    ensures Wrap64(Wrap64(x) + y) == Wrap64(x + y)
  {
    var k := (Wrap64(x) + y) / WORD64;
    ModUnique(x + y, WORD64, x / WORD64 + k, Wrap64(Wrap64(x) + y));
  }
}
