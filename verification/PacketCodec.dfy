/** Building and parsing IPv4, UDP and TCP packets, with checksums on or off. */
module PacketCodec {
  import opened Words
  import opened Options
  import opened Checksum
  import opened NatRewrite

  function Be16(v: u16): (b: Bytes)
    ensures |b| == 2
  {
    [v / 256, v % 256]
  }

  function Be32(v: u32): (b: Bytes)
    ensures |b| == 4
  {
    Be16(v / 0x1_0000) + Be16(v % 0x1_0000)
  }

  function Long(a: byte, b: byte, c: byte, d: byte): u32 {
    Word(a, b) * 0x1_0000 + Word(c, d)
  }

  lemma Be16Reads(v: u16)
    ensures Word(Be16(v)[0], Be16(v)[1]) == v
  {
  }

  lemma Be32Reads(v: u32)
    ensures Long(Be32(v)[0], Be32(v)[1], Be32(v)[2], Be32(v)[3]) == v
  {
    Be16Reads(v / 0x1_0000);
    Be16Reads(v % 0x1_0000);
    hide Be16, Word;
  }

  datatype AddrPair = AddrPair(src: Addr, dst: Addr)

  /** The pseudo header of a segment of this length. */
  function PseudoOf(addr: AddrPair, proto: byte, length: u16): (b: Bytes)
    ensures |b| == 12
  {
    addr.src + addr.dst + [0, proto] + Be16(length)
  }

  /** A checksum over a pseudo header and a segment, written into the segment. */
  function Stamped(pseudo: Bytes, body: Bytes, at: nat, on: bool): (r: Bytes)
    requires at + 2 <= |body|
    ensures |r| == |body|
  {
    if on then Put16(body, at, CheckSum(pseudo + body)) else body
  }

  lemma StampedVerifies(pseudo: Bytes, body: Bytes, at: nat)
    requires at + 2 <= |body| && body[at] == 0 && body[at + 1] == 0 && |pseudo| % 2 == 0 && at % 2 == 0
    ensures Verifies(pseudo + Stamped(pseudo, body, at, true))
  {
    hide CheckSum, Verifies;
    assert Put16(body, at, 0) == body;
    assert Put16(pseudo + body, |pseudo| + at, 0) == pseudo + body;
    AppendPut(pseudo, body, at, CheckSum(pseudo + body));
    SealedVerifies(pseudo + body, |pseudo| + at);
  }

  // ---- UDP ------------------------------------------------------------------------------------

  datatype Udp = Udp(payload: Bytes, srcPort: u16, dstPort: u16)

  function UdpBody(x: Udp): Bytes
    requires |x.payload| <= 1472
  {
    Be16(x.srcPort) + Be16(x.dstPort) + Be16(|x.payload| + 8) + [0, 0] + x.payload
  }

  function BuildUdp(x: Udp, addr: AddrPair, on: bool): Option<Bytes> {
    if |x.payload| > 1472 then None
    else Some(Stamped(PseudoOf(addr, UDP, |x.payload| + 8), UdpBody(x), 6, on))
  }

  function ParseUdp(pkt: Bytes, addr: AddrPair, on: bool): Option<Udp> {
    if !(8 <= |pkt| <= 1480) then None else
    var total := Word(pkt[4], pkt[5]);
    if !(8 <= total <= |pkt|) then None
    else if on && !Verifies(PseudoOf(addr, UDP, total) + pkt[..total]) then None
    else Some(Udp(pkt[8..total], Word(pkt[0], pkt[1]), Word(pkt[2], pkt[3])))
  }

  lemma UdpFields(x: Udp, v: u16)
    requires |x.payload| <= 1472
    ensures var b := Put16(UdpBody(x), 6, v);
            && Word(b[0], b[1]) == x.srcPort && Word(b[2], b[3]) == x.dstPort
               && Word(b[4], b[5]) == |b| == |x.payload| + 8
            && b[8..] == x.payload
  {
    Be16Reads(x.srcPort);
    Be16Reads(x.dstPort);
    Be16Reads(|x.payload| + 8);
  }

  /** Parsing undoes building, for every payload that fits. */
  lemma UdpRoundTrip(x: Udp, addr: AddrPair, on: bool)
    ensures match BuildUdp(x, addr, on)
            case Some(pkt) => ParseUdp(pkt, addr, on) == Some(x)
            case None => |x.payload| > 1472
  {
    if |x.payload| <= 1472 {
      var body := UdpBody(x);
      var pseudo := PseudoOf(addr, UDP, |x.payload| + 8);
      assert Put16(body, 6, 0) == body;
      UdpFields(x, 0);
      hide UdpBody, PseudoOf, Verifies, CheckSum, Word, Put16;
      UdpFields(x, CheckSum(pseudo + body));
      var pkt := Stamped(pseudo, body, 6, on);
      assert pkt[..|pkt|] == pkt;
      if on {
        UdpBlank(x);
        StampedVerifies(pseudo, body, 6);
      }
    }
  }

  /** Bytes after the datagram do not matter. */
  lemma UdpWithTail(x: Udp, addr: AddrPair, tail: Bytes)
    requires |x.payload| + |tail| <= 1472
    ensures BuildUdp(x, addr, true).Some?
    ensures var seg := BuildUdp(x, addr, true).value;
            && |seg| == |x.payload| + 8 == Word(seg[4], seg[5])
            && ParseUdp(seg + tail, addr, true) == Some(x)
  {
    UdpRoundTrip(x, addr, true);
    UdpBlank(x);
    UdpFields(x, CheckSum(PseudoOf(addr, UDP, |x.payload| + 8) + UdpBody(x)));
    hide UdpBody, PseudoOf, CheckSum, Verifies, Word, Put16;
    var seg := BuildUdp(x, addr, true).value;
    assert (seg + tail)[..|seg|] == seg == seg[..|seg|];
    assert (seg + tail)[8..|seg|] == seg[8..|seg|];
  }

  lemma UdpBlank(x: Udp)
    requires |x.payload| <= 1472
    ensures |UdpBody(x)| == |x.payload| + 8 && UdpBody(x)[6] == 0 && UdpBody(x)[7] == 0
  {
  }

  // ---- TCP ------------------------------------------------------------------------------------

  datatype Tcp = Tcp(payload: Bytes, srcPort: u16, dstPort: u16, seqNum: u32, ackNum: u32, flags: byte, window: u16,
                     mss: u16)

  predicate Syn(flags: byte) {
    flags / 2 % 2 == 1
  }

  function HeaderLen(x: Tcp): nat {
    if x.mss != 0 then 24 else 20
  }

  predicate Buildable(x: Tcp) {
    (x.mss != 0 ==> Syn(x.flags)) && |x.payload| <= 1480 - HeaderLen(x)
  }

  function TcpBody(x: Tcp): Bytes {
    Be16(x.srcPort) + Be16(x.dstPort) + Be32(x.seqNum) + Be32(x.ackNum) + [HeaderLen(x) / 4 * 16, x.flags]
    + Be16(x.window) + [0, 0] + [0, 0] + (if x.mss != 0 then [2, 4] + Be16(x.mss) else []) + x.payload
  }

  function BuildTcp(x: Tcp, addr: AddrPair, on: bool): Option<Bytes> {
    if !Buildable(x) then None
    else Some(Stamped(PseudoOf(addr, TCP, |x.payload| + HeaderLen(x)), TcpBody(x), 16, on))
  }

  /** The option loop from offset on: the MSS found, or failure. */
  function Scan(pkt: Bytes, offset: nat, end: nat, mss: u16): Option<u16>
    requires offset <= |pkt| && end <= |pkt| && |pkt| >= 20
    decreases end - offset
  {
    if offset >= end || pkt[offset] == 0 then Some(mss)
    else if pkt[offset] == 1 then Scan(pkt, offset + 1, end, mss)
    else if offset + 2 > end || pkt[offset + 1] < 2 || offset + pkt[offset + 1] > end then None
    else if pkt[offset] == 2 && (pkt[offset + 1] != 4 || Word(pkt[offset + 2], pkt[offset + 3]) == 0) then None
    else Scan(pkt, offset + pkt[offset + 1], end,
              if pkt[offset] == 2 && Syn(pkt[13]) then Word(pkt[offset + 2], pkt[offset + 3]) else mss)
  }

  function ParseTcp(pkt: Bytes, addr: AddrPair, on: bool): Option<Tcp> {
    if !(20 <= |pkt| <= 1480) then None else
    var head := pkt[12] / 16 * 4;
    if !(20 <= head <= |pkt|) then None else
    match Scan(pkt, 20, head, 0)
    case None => None
    case Some(mss) =>
      if on && !Verifies(PseudoOf(addr, TCP, |pkt|) + pkt) then None
      else Some(Tcp(pkt[head..], Word(pkt[0], pkt[1]), Word(pkt[2], pkt[3]), Long(pkt[4], pkt[5], pkt[6], pkt[7]),
                    Long(pkt[8], pkt[9], pkt[10], pkt[11]), pkt[13], Word(pkt[14], pkt[15]), mss))
  }

  /** The option loop of ParseTcpPkt. */
  method ScanOptions(pkt: Bytes, head: nat) returns (mss: Option<u16>)
    requires 20 <= head <= |pkt|
    ensures mss == Scan(pkt, 20, head, 0)
  {
    hide Word, Syn;
    var found: u16 := 0;
    var offset := 20;
    while offset < head
      invariant 20 <= offset <= head && Scan(pkt, offset, head, found) == Scan(pkt, 20, head, 0)
      decreases head - offset
    {
      var kind := pkt[offset];
      if kind == 0 { break; }
      if kind == 1 {
        offset := offset + 1;
        continue;
      }
      if offset + 2 > head || pkt[offset + 1] < 2 || offset + pkt[offset + 1] > head { return None; }
      var length := pkt[offset + 1];
      if kind == 2 {
        if length != 4 || Word(pkt[offset + 2], pkt[offset + 3]) == 0 { return None; }
        if Syn(pkt[13]) { found := Word(pkt[offset + 2], pkt[offset + 3]); }
      }
      offset := offset + length;
    }
    mss := Some(found);
  }

  // ---- What an option list means --------------------------------------------------------------

  datatype TcpOption = Filler | SegmentSize(mss: u16) | Unknown(kind: byte, body: Bytes)

  predicate WellFormed(o: TcpOption) {
    match o
    case Filler => true
    case SegmentSize(mss) => mss != 0
    case Unknown(kind, body) => kind > 2 && |body| <= 253
  }

  function OptionBytes(o: TcpOption): (b: Bytes)
    requires WellFormed(o)
    ensures b != []
  {
    match o
    case Filler => [1]
    case SegmentSize(mss) => [2, 4] + Be16(mss)
    case Unknown(kind, body) => [kind, |body| + 2] + body
  }

  predicate AllWellFormed(os: seq<TcpOption>) {
    forall i :: 0 <= i < |os| ==> WellFormed(os[i])
  }

  function OptionsBytes(os: seq<TcpOption>): Bytes
    requires AllWellFormed(os)
  {
    if os == [] then [] else OptionBytes(os[0]) + OptionsBytes(os[1..])
  }

  /** The last segment size of a list, or the default. */
  function LastMss(os: seq<TcpOption>, default: u16): u16 {
    if os == [] then default
    else LastMss(os[1..], if os[0].SegmentSize? then os[0].mss else default)
  }

  /** A list ends where the header does or at an end mark, after which nothing is read. */
  predicate Ends(tail: Bytes) {
    tail == [] || tail[0] == 0
  }

  lemma FirstOption(pkt: Bytes, offset: nat, end: nat, mss: u16, o: TcpOption)
    requires WellFormed(o) && |pkt| >= 20 && offset + |OptionBytes(o)| <= end <= |pkt|
    requires pkt[offset..offset + |OptionBytes(o)|] == OptionBytes(o)
    ensures Scan(pkt, offset, end, mss) ==
            Scan(pkt, offset + |OptionBytes(o)|, end, if o.SegmentSize? && Syn(pkt[13]) then o.mss else mss)
  {
    var b := OptionBytes(o);
    var a := pkt[offset..offset + |b|];
    assert pkt[offset] == a[0] == b[0];
    assert |b| > 1 ==> pkt[offset + 1] == a[1] == b[1];
    if o.SegmentSize? {
      assert pkt[offset + 2] == a[2] == b[2] && pkt[offset + 3] == a[3] == b[3];
      Be16Reads(o.mss);
    }
    hide Word, Syn, Be16;
  }

  /** The loop yields the last segment size of any well-formed list on a SYN, and what it had otherwise. */
  lemma {:induction false} ScanReads(pkt: Bytes, offset: nat, end: nat, mss: u16, os: seq<TcpOption>, tail: Bytes)
    requires |pkt| >= 20 && offset <= end <= |pkt| && AllWellFormed(os) && Ends(tail)
    requires pkt[offset..end] == OptionsBytes(os) + tail
    ensures Scan(pkt, offset, end, mss) == Some(if Syn(pkt[13]) then LastMss(os, mss) else mss)
    decreases |os|
  {
    hide Syn, OptionBytes, WellFormed;
    if os == [] {
      assert pkt[offset..end] == tail;
      assert tail != [] ==> pkt[offset] == tail[0];
    } else {
      hide Scan;
      var b := OptionBytes(os[0]);
      var rest := OptionsBytes(os[1..]) + tail;
      assert pkt[offset..end] == b + rest;
      assert pkt[offset..offset + |b|] == (b + rest)[..|b|] == b;
      assert pkt[offset + |b|..end] == (b + rest)[|b|..] == rest;
      FirstOption(pkt, offset, end, mss, os[0]);
      ScanReads(pkt, offset + |b|, end, if os[0].SegmentSize? && Syn(pkt[13]) then os[0].mss else mss, os[1..], tail);
    }
  }

  /** The loop fails on everything else: what it accepts is a well-formed list. */
  lemma {:induction false} ScanAccepts(pkt: Bytes, offset: nat, end: nat, mss: u16)
    returns (os: seq<TcpOption>, tail: Bytes)
    requires |pkt| >= 20 && offset <= end <= |pkt| && Scan(pkt, offset, end, mss).Some?
    ensures AllWellFormed(os) && Ends(tail) && pkt[offset..end] == OptionsBytes(os) + tail
    decreases end - offset
  {
    hide Syn, Scan, OptionBytes, WellFormed, AllWellFormed, OptionsBytes;
    if offset == end || pkt[offset] == 0 {
      os, tail := [], pkt[offset..end];
      NoOptions(tail);
    } else {
      var o := OptionAt(pkt, offset, end, mss);
      var n := |OptionBytes(o)|;
      FirstOption(pkt, offset, end, mss, o);
      os, tail := ScanAccepts(pkt, offset + n, end, if o.SegmentSize? && Syn(pkt[13]) then o.mss else mss);
      MoreOptions(o, os, tail);
      assert pkt[offset..end] == pkt[offset..offset + n] + pkt[offset + n..end];
      os := [o] + os;
    }
  }

  lemma NoOptions(tail: Bytes)
    ensures AllWellFormed([]) && OptionsBytes([]) + tail == tail
  {
  }

  lemma MoreOptions(o: TcpOption, os: seq<TcpOption>, tail: Bytes)
    requires WellFormed(o) && AllWellFormed(os)
    ensures AllWellFormed([o] + os) && OptionsBytes([o] + os) + tail == OptionBytes(o) + (OptionsBytes(os) + tail)
  {
    hide OptionBytes, WellFormed;
    assert ([o] + os)[1..] == os;
  }

  lemma OptionAt(pkt: Bytes, offset: nat, end: nat, mss: u16) returns (o: TcpOption)
    requires |pkt| >= 20 && offset < end <= |pkt| && Scan(pkt, offset, end, mss).Some? && pkt[offset] != 0
    ensures WellFormed(o) && offset + |OptionBytes(o)| <= end
    ensures pkt[offset..offset + |OptionBytes(o)|] == OptionBytes(o)
  {
    if pkt[offset] > 1 { OptionFits(pkt, offset, end, mss); }
    hide Scan;
    if pkt[offset] == 1 {
      o := Filler;
    } else if pkt[offset] == 2 {
      o := SegmentSize(Word(pkt[offset + 2], pkt[offset + 3]));
      WordParts(pkt[offset + 2], pkt[offset + 3]);
    } else {
      o := Unknown(pkt[offset], pkt[offset + 2..offset + pkt[offset + 1]]);
    }
  }

  lemma OptionFits(pkt: Bytes, offset: nat, end: nat, mss: u16)
    requires |pkt| >= 20 && offset < end <= |pkt| && Scan(pkt, offset, end, mss).Some? && pkt[offset] > 1
    ensures offset + 2 <= end && pkt[offset + 1] >= 2 && offset + pkt[offset + 1] <= end
    ensures pkt[offset] == 2 ==> pkt[offset + 1] == 4 && Word(pkt[offset + 2], pkt[offset + 3]) != 0
  {
    hide Word, Syn;
  }

  /** b has the fields of x in their places. */
  predicate Laid(x: Tcp, b: Bytes) {
    && |b| == HeaderLen(x) + |x.payload|
    && Word(b[0], b[1]) == x.srcPort && Word(b[2], b[3]) == x.dstPort
    && Long(b[4], b[5], b[6], b[7]) == x.seqNum && Long(b[8], b[9], b[10], b[11]) == x.ackNum
    && b[12] == HeaderLen(x) / 4 * 16 && b[13] == x.flags && Word(b[14], b[15]) == x.window
    && b[HeaderLen(x)..] == x.payload
    && (x.mss != 0 ==> b[20] == 2 && b[21] == 4 && Word(b[22], b[23]) == x.mss)
  }

  lemma TcpLaid(x: Tcp, v: u16)
    requires Buildable(x)
    ensures |TcpBody(x)| == HeaderLen(x) + |x.payload| && Laid(x, Put16(TcpBody(x), 16, v))
  {
    Be16Reads(x.srcPort);
    Be16Reads(x.dstPort);
    Be32Reads(x.seqNum);
    Be32Reads(x.ackNum);
    Be16Reads(x.window);
    Be16Reads(x.mss);
    hide Be16, Be32, Word, Long;
    var b := TcpBody(x);
    assert b[0..2] == Be16(x.srcPort) && b[2..4] == Be16(x.dstPort) && b[4..8] == Be32(x.seqNum)
           && b[8..12] == Be32(x.ackNum);
    assert b[14..16] == Be16(x.window) && (x.mss != 0 ==> b[22..24] == Be16(x.mss));
  }

  /** A packet laid out so parses to x when its checksum is good or not looked at. */
  lemma LaidParses(x: Tcp, pkt: Bytes, addr: AddrPair, on: bool)
    requires Buildable(x) && Laid(x, pkt) && (on ==> Verifies(PseudoOf(addr, TCP, |pkt|) + pkt))
    ensures ParseTcp(pkt, addr, on) == Some(x)
  {
    hide PseudoOf, Verifies, Word, Long, Scan, Syn;
    OwnOptions(pkt, HeaderLen(x), x.mss);
    assert HeaderLen(x) / 4 * 16 / 16 * 4 == HeaderLen(x);
  }

  lemma TcpBlank(x: Tcp)
    requires Buildable(x)
    ensures |TcpBody(x)| == HeaderLen(x) + |x.payload| && TcpBody(x)[16] == 0 && TcpBody(x)[17] == 0
  {
    hide Be16, Be32;
  }

  lemma TcpRoundTrip(x: Tcp, addr: AddrPair, on: bool)
    ensures match BuildTcp(x, addr, on)
            case Some(pkt) => ParseTcp(pkt, addr, on) == Some(x)
            case None => !Buildable(x)
  {
    if Buildable(x) {
      TcpBlank(x);
      var body := TcpBody(x);
      var pseudo := PseudoOf(addr, TCP, |x.payload| + HeaderLen(x));
      TcpLaid(x, 0);
      assert Put16(body, 16, 0) == body;
      TcpLaid(x, CheckSum(pseudo + body));
      var pkt := Stamped(pseudo, body, 16, on);
      hide TcpBody, PseudoOf, Verifies, CheckSum, Put16, Laid, ParseTcp;
      if on { StampedVerifies(pseudo, body, 16); }
      LaidParses(x, pkt, addr, on);
    }
  }

  /** Parsing a header that build wrote finds its MSS option. */
  lemma OwnOptions(pkt: Bytes, head: nat, mss: u16)
    requires |pkt| >= head && (head == 20 || head == 24) && (mss == 0 <==> head == 20)
    requires mss != 0 ==> Syn(pkt[13]) && pkt[20] == 2 && pkt[21] == 4 && Word(pkt[22], pkt[23]) == mss
    ensures Scan(pkt, 20, head, 0) == Some(mss)
  {
    hide Word, Syn;
    if head == 24 { assert Scan(pkt, 24, 24, mss) == Some(mss); }
  }

  // ---- ICMP -----------------------------------------------------------------------------------

  datatype Icmp = Icmp(payload: Bytes, kind: byte, id: Bytes, seqNum: u16)

  /** Requests, replies and time exceeded are all the parser knows. */
  predicate Supported(kind: byte) {
    kind == 8 || kind == 0 || kind == 11
  }

  function IcmpBody(x: Icmp): Bytes {
    [x.kind, 0] + [0, 0] + x.id + Be16(x.seqNum) + x.payload
  }

  /** The checksum of ICMP is not subject to the switch. */
  function BuildIcmp(x: Icmp): Option<Bytes> {
    if |x.payload| > 1472 || |x.id| != 2 then None
    else Some(Stamped([], IcmpBody(x), 2, true))
  }

  predicate IcmpShaped(pkt: Bytes) {
    8 <= |pkt| <= 1480 && Supported(pkt[0]) && pkt[1] == 0
  }

  function IcmpFields(pkt: Bytes): Icmp
    requires |pkt| >= 8
  {
    Icmp(pkt[8..], pkt[0], pkt[4..6], Word(pkt[6], pkt[7]))
  }

  function ParseIcmp(pkt: Bytes): Option<Icmp> {
    if !IcmpShaped(pkt) || !Verifies(pkt) then None else Some(IcmpFields(pkt))
  }

  /** Parsing undoes building exactly for the three types the parser knows. */
  lemma IcmpRoundTrip(x: Icmp)
    ensures match BuildIcmp(x)
            case Some(pkt) => ParseIcmp(pkt) == if Supported(x.kind) then Some(x) else None
            case None => |x.payload| > 1472 || |x.id| != 2
  {
    if |x.payload| <= 1472 && |x.id| == 2 {
      var body := IcmpBody(x);
      Be16Reads(x.seqNum);
      hide CheckSum, Verifies, Word, Be16;
      var pkt := Put16(body, 2, CheckSum([] + body));
      assert pkt[4..6] == x.id && pkt[8..] == x.payload && pkt[6..8] == Be16(x.seqNum);
      StampedVerifies([], body, 2);
      assert [] + pkt == pkt;
    }
  }

  // ---- IPv4 -----------------------------------------------------------------------------------

  datatype Ipv4 = Ipv4(payload: Bytes, proto: byte, src: Addr, dst: Addr)

  function Ipv4Header(x: Ipv4, id: u16): (b: Bytes)
    requires |x.payload| <= 1480
    ensures |b| == 20
  {
    [0x45, 0] + Be16(|x.payload| + 20) + Be16(id) + [0, 0, 0x80, x.proto, 0, 0] + x.src + x.dst
  }

  function BuildIpv4(x: Ipv4, id: u16, on: bool): Option<Bytes> {
    if |x.payload| > 1480 then None
    else Some(Stamped([], Ipv4Header(x, id), 10, on) + x.payload)
  }

  function ParseIpv4(pkt: Bytes, on: bool): Option<Ipv4> {
    if !(20 <= |pkt| <= 1500) || pkt[0] != 0x45 then None else
    var total := Word(pkt[2], pkt[3]);
    if !(20 <= total <= |pkt|) then None
    else if (pkt[6] != 0x40 && pkt[6] != 0) || pkt[7] != 0 then None
    else if pkt[9] != ICMP && pkt[9] != TCP && pkt[9] != UDP then None
    else if on && !Verifies(pkt[..20]) then None
    else Some(Ipv4(pkt[20..total], pkt[9], pkt[12..16], pkt[16..20]))
  }

  /** h has the fields of x in their places. */
  predicate Headed(x: Ipv4, h: Bytes) {
    && |h| == 20 && h[0] == 0x45 && Word(h[2], h[3]) == |x.payload| + 20 && h[6] == 0 && h[7] == 0 && h[9] == x.proto
    && h[12..16] == x.src && h[16..20] == x.dst
  }

  lemma Ipv4Headed(x: Ipv4, id: u16, v: u16)
    requires |x.payload| <= 1480
    ensures Headed(x, Put16(Ipv4Header(x, id), 10, v))
    ensures Ipv4Header(x, id)[10] == 0 && Ipv4Header(x, id)[11] == 0
  {
    Be16Reads(|x.payload| + 20);
    hide Be16, Word;
    var h := Ipv4Header(x, id);
    assert h[2..4] == Be16(|x.payload| + 20);
    assert Put16(h, 10, v)[12..16] == x.src && Put16(h, 10, v)[16..20] == x.dst;
  }

  lemma HeadedParses(x: Ipv4, h: Bytes, on: bool)
    requires |x.payload| <= 1480 && Headed(x, h) && (on ==> Verifies(h))
    ensures ParseIpv4(h + x.payload, on) == if x.proto == ICMP || x.proto == TCP || x.proto == UDP then Some(x)
                                            else None
  {
    hide Word, Verifies;
    var pkt := h + x.payload;
    assert pkt[..20] == h && pkt[20..|pkt|] == x.payload && pkt[12..16] == h[12..16] && pkt[16..20] == h[16..20];
  }

  lemma StampedHead(x: Ipv4, id: u16, on: bool)
    requires |x.payload| <= 1480
    ensures var h := Stamped([], Ipv4Header(x, id), 10, on);
            Headed(x, h) && (on ==> Verifies(h)) && Put16(h, 10, 0) == Ipv4Header(x, id)
            && (on ==> h == Put16(Ipv4Header(x, id), 10, CheckSum(Ipv4Header(x, id))))
  {
    var h0 := Ipv4Header(x, id);
    Ipv4Headed(x, id, 0);
    assert Put16(h0, 10, 0) == h0;
    assert [] + h0 == h0;
    Ipv4Headed(x, id, CheckSum(h0));
    PutTwice(h0, 10, CheckSum(h0), 0);
    hide Ipv4Header, Headed, Verifies, CheckSum, Put16;
    if on {
      StampedVerifies([], h0, 10);
      assert [] + Stamped([], h0, 10, true) == Stamped([], h0, 10, true);
    }
  }

  /** Parsing undoes building exactly for the three protocols the parser knows. */
  lemma Ipv4RoundTrip(x: Ipv4, id: u16, on: bool)
    ensures match BuildIpv4(x, id, on)
            case Some(pkt) => ParseIpv4(pkt, on) == if x.proto == ICMP || x.proto == TCP || x.proto == UDP then Some(x)
                                                    else None
            case None => |x.payload| > 1480
  {
    hide ParseIpv4, Stamped, Ipv4Header, Headed, Verifies;
    if |x.payload| <= 1480 {
      StampedHead(x, id, on);
      HeadedParses(x, Stamped([], Ipv4Header(x, id), 10, on), on);
    }
  }

  // ---- Built packets and rewriting ------------------------------------------------------------

  lemma Recalc4Built(x: Ipv4, id: u16, on: bool)
    requires |x.payload| <= 1480
    ensures var pkt := Stamped([], Ipv4Header(x, id), 10, on) + x.payload;
            Recalc4(pkt, on) == pkt
  {
    hide Stamped, Headed, Verifies, CheckSum, Ipv4Header, Put16;
    StampedHead(x, id, on);
    var h, h0 := Stamped([], Ipv4Header(x, id), 10, on), Ipv4Header(x, id);
    PutBefore(h, x.payload, 10, 0);
    PutBefore(h0, x.payload, 10, CheckSum(h0));
    assert (h0 + x.payload)[..20] == h0;
    if !on { HeadPlain(h0); }
  }

  lemma PutBefore(a: Bytes, b: Bytes, at: nat, v: u16)
    requires at + 2 <= |a|
    ensures Put16(a + b, at, v) == Put16(a, at, v) + b
  {
  }

  lemma HeadPlain(h0: Bytes)
    requires |h0| >= 12
    ensures Stamped([], h0, 10, false) == h0
  {
  }

  /** The two pseudo headers agree: the one build sums over and the one a rewrite reads from the packet. */
  lemma PseudoAgrees(x: Ipv4, h: Bytes, segment: Bytes)
    requires Headed(x, h) && |segment| == |x.payload| <= 1480
    ensures Pseudo(h + segment, x.proto) == PseudoOf(AddrPair(x.src, x.dst), x.proto, |x.payload|)
  {
    hide Word;
    var pkt := h + segment;
    assert pkt[12..20] == h[12..16] + h[16..20];
    assert |x.payload| / 256 % 256 == |x.payload| / 256;
  }

  /** A stamped segment behind a header: blanking its checksum gives the segment back, stamping it again the packet. */
  lemma StampedBehind(h: Bytes, pseudo: Bytes, body: Bytes, at: nat, on: bool)
    requires at + 2 <= |body| && body[at] == 0 && body[at + 1] == 0
    ensures var pkt := h + Stamped(pseudo, body, at, on);
            && Put16(pkt, |h| + at, 0) == h + body
            && (if on then Put16(h + body, |h| + at, CheckSum(pseudo + body)) else h + body) == pkt
  {
    hide CheckSum;
    var c := CheckSum(pseudo + body);
    assert Put16(body, at, 0) == body;
    PutTwice(body, at, c, 0);
    AppendPut(h, Stamped(pseudo, body, at, on), at, 0);
    AppendPut(h, body, at, c);
  }

  /** The pseudo header under a protocol's checksum. */
  function PseudoFor(x: Ipv4, length: u16): (b: Bytes)
    ensures |b| % 2 == 0
  {
    if x.proto == ICMP then [] else PseudoOf(AddrPair(x.src, x.dst), x.proto, length)
  }

  /** A packet built by both layers has current checksums. */
  lemma BuiltIsFinished(x: Ipv4, id: u16, body: Bytes, at: nat, on: bool)
    requires || (x.proto == TCP && at == 16 && |body| >= 20) || (x.proto == UDP && at == 6 && |body| >= 8)
             || (x.proto == ICMP && at == 2 && |body| >= 8)
    requires |body| <= 1480 && body[at] == 0 && body[at + 1] == 0
    requires x.payload == Stamped(PseudoFor(x, |body|), body, at, on || x.proto == ICMP)
    ensures var pkt := Stamped([], Ipv4Header(x, id), 10, on) + x.payload;
            Finish(pkt, on) == pkt
  {
    hide CheckSum, Ipv4Header, Verifies, Recalc4, Put16, PseudoOf, Word;
    StampedHead(x, id, on);
    Recalc4Built(x, id, on);
    var h := Stamped([], Ipv4Header(x, id), 10, on);
    StampedBehind(h, PseudoFor(x, |body|), body, at, on || x.proto == ICMP);
    FieldOf(x, h, x.payload, at);
    FieldOf(x, h, body, at);
    CoveredBuilt(x, h, body);
  }

  lemma FieldOf(x: Ipv4, h: Bytes, segment: Bytes, at: nat)
    requires || (x.proto == TCP && at == 16 && |segment| >= 20) || (x.proto == UDP && at == 6 && |segment| >= 8)
             || (x.proto == ICMP && at == 2 && |segment| >= 8)
    requires |h| == 20 && h[9] == x.proto
    ensures ChecksumAt(h + segment) == 20 + at
  {
  }

  lemma CoveredBuilt(x: Ipv4, h: Bytes, body: Bytes)
    requires Headed(x, h) && |body| == |x.payload| <= 1480
    ensures Covered(h + body) == PseudoFor(x, |body|) + body
  {
    hide Word, PseudoOf;
    assert (h + body)[20..] == body && (h + body)[9] == x.proto;
    if x.proto != ICMP { PseudoAgrees(x, h, body); }
    assert [] + body == body;
  }

  /** A packet built for TCP, rewritten and rewritten back, is the packet built. */
  lemma BuiltTcpRestored(x: Tcp, src: Addr, dst: Addr, id: u16, source: bool, ip': Addr, port': u16, on: bool)
    requires Buildable(x)
    ensures var seg := BuildTcp(x, AddrPair(src, dst), on).value;
            |seg| <= 1480 &&
            var pkt := BuildIpv4(Ipv4(seg, TCP, src, dst), id, on).value;
            NatChange(NatChange(pkt, source, ip', port', on), source,
                      if source then src else dst, if source then x.srcPort else x.dstPort, on) == pkt
  {
    TcpBlank(x);
    TcpLaid(x, 0);
    var body := TcpBody(x);
    var pseudo := PseudoOf(AddrPair(src, dst), TCP, |x.payload| + HeaderLen(x));
    TcpLaid(x, CheckSum(pseudo + body));
    assert Put16(body, 16, 0) == body;
    var seg := Stamped(pseudo, body, 16, on);
    var y := Ipv4(seg, TCP, src, dst);
    BuiltIsFinished(y, id, body, 16, on);
    StampedHead(y, id, on);
    var h := Stamped([], Ipv4Header(y, id), 10, on);
    assert Word(seg[0], seg[1]) == x.srcPort && Word(seg[2], seg[3]) == x.dstPort;
    hide Stamped, TcpBody, Laid, Finish, NatChange, CheckSum, PseudoOf, Verifies, Ipv4Header;
    HasOwn(y, h, x.srcPort, x.dstPort, source);
    RewriteBack(h + seg, source, if source then src else dst, if source then x.srcPort else x.dstPort, ip', port', on);
  }

  lemma BuiltUdpRestored(x: Udp, src: Addr, dst: Addr, id: u16, source: bool, ip': Addr, port': u16, on: bool)
    requires |x.payload| <= 1472
    ensures var seg := BuildUdp(x, AddrPair(src, dst), on).value;
            |seg| <= 1480 &&
            var pkt := BuildIpv4(Ipv4(seg, UDP, src, dst), id, on).value;
            NatChange(NatChange(pkt, source, ip', port', on), source,
                      if source then src else dst, if source then x.srcPort else x.dstPort, on) == pkt
  {
    UdpBlank(x);
    var body := UdpBody(x);
    var pseudo := PseudoOf(AddrPair(src, dst), UDP, |x.payload| + 8);
    UdpFields(x, 0);
    UdpFields(x, CheckSum(pseudo + body));
    assert Put16(body, 6, 0) == body;
    var seg := Stamped(pseudo, body, 6, on);
    var y := Ipv4(seg, UDP, src, dst);
    BuiltIsFinished(y, id, body, 6, on);
    StampedHead(y, id, on);
    var h := Stamped([], Ipv4Header(y, id), 10, on);
    assert Word(seg[0], seg[1]) == x.srcPort && Word(seg[2], seg[3]) == x.dstPort;
    hide Stamped, UdpBody, Finish, NatChange, CheckSum, PseudoOf, Verifies, Ipv4Header;
    HasOwn(y, h, x.srcPort, x.dstPort, source);
    RewriteBack(h + seg, source, if source then src else dst, if source then x.srcPort else x.dstPort, ip', port', on);
  }

  lemma BuiltIcmpRestored(x: Icmp, src: Addr, dst: Addr, id: u16, source: bool, ip': Addr, port': u16, on: bool)
    requires |x.payload| <= 1472 && |x.id| == 2
    ensures var seg := BuildIcmp(x).value;
            |seg| <= 1480 &&
            var pkt := BuildIpv4(Ipv4(seg, ICMP, src, dst), id, on).value;
            NatChange(NatChange(pkt, source, ip', port', on), source,
                      if source then src else dst, Word(x.id[0], x.id[1]), on) == pkt
  {
    hide Stamped, IcmpBody, Finish, NatChange, CheckSum, Verifies, Ipv4Header, Word, Put16;
    IcmpLaid(x);
    var body := IcmpBody(x);
    var seg := Stamped([], body, 2, true);
    var y := Ipv4(seg, ICMP, src, dst);
    BuiltIsFinished(y, id, body, 2, on);
    StampedHead(y, id, on);
    var h := Stamped([], Ipv4Header(y, id), 10, on);
    var pkt := h + seg;
    assert pkt[9] == ICMP && pkt[24] == seg[4] && pkt[25] == seg[5];
    assert pkt[12..16] == h[12..16] && pkt[16..20] == h[16..20];
    RewriteBack(pkt, source, if source then src else dst, Word(x.id[0], x.id[1]), ip', port', on);
  }

  lemma IcmpLaid(x: Icmp)
    requires |x.id| == 2
    ensures |IcmpBody(x)| == |x.payload| + 8 && IcmpBody(x)[2] == 0 && IcmpBody(x)[3] == 0
    ensures Stamped([], IcmpBody(x), 2, true)[4] == x.id[0] && Stamped([], IcmpBody(x), 2, true)[5] == x.id[1]
  {
    hide CheckSum, Be16;
  }

  lemma HasOwn(y: Ipv4, h: Bytes, srcPort: u16, dstPort: u16, source: bool)
    requires Headed(y, h) && (y.proto == TCP || y.proto == UDP) && |y.payload| >= 8
    requires Word(y.payload[0], y.payload[1]) == srcPort && Word(y.payload[2], y.payload[3]) == dstPort
    ensures Has(h + y.payload, source, if source then y.src else y.dst, if source then srcPort else dstPort)
  {
    hide Word;
    var pkt := h + y.payload;
    assert pkt[12..16] == h[12..16] && pkt[16..20] == h[16..20];
    assert pkt[9] == y.proto && pkt[20] == y.payload[0] && pkt[21] == y.payload[1] && pkt[22] == y.payload[2]
           && pkt[23] == y.payload[3];
  }
}
