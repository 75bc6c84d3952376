/** What a host makes of a packet that NAT has rewritten, through the parsers the program receives with. */
module PacketReceiver {
  import opened Words
  import opened Options
  import opened Checksum
  import opened NatRewrite
  import opened PacketCodec

  datatype Message = Echo(icmp: Icmp) | Stream(tcp: Tcp) | Datagram(udp: Udp)
  datatype Delivery = Delivery(src: Addr, dst: Addr, message: Message)

  function Wrapped(x: Ipv4, message: Message): Option<Delivery> {
    Some(Delivery(x.src, x.dst, message))
  }

  /** ParseIpv4Pkt, then the parser of the packet's protocol. */
  function Deliver(pkt: Bytes, on: bool): Option<Delivery> {
    match ParseIpv4(pkt, on)
    case None => None
    case Some(x) =>
      var addr := AddrPair(x.src, x.dst);
      if x.proto == ICMP then
        match ParseIcmp(x.payload) { case None => None case Some(m) => Wrapped(x, Echo(m)) }
      else if x.proto == TCP then
        match ParseTcp(x.payload, addr, on) { case None => None case Some(m) => Wrapped(x, Stream(m)) }
      else
        match ParseUdp(x.payload, addr, on) { case None => None case Some(m) => Wrapped(x, Datagram(m)) }
  }

  /** What a packet says, with no checksum looked at; nothing when it is malformed. */
  function Said(pkt: Bytes): Option<Delivery> {
    match ParseIpv4(pkt, false)
    case None => None
    case Some(x) =>
      var addr := AddrPair(x.src, x.dst);
      if x.proto == ICMP then
        if IcmpShaped(x.payload) then Wrapped(x, Echo(IcmpFields(x.payload))) else None
      else if x.proto == TCP then
        match ParseTcp(x.payload, addr, false) { case None => None case Some(m) => Wrapped(x, Stream(m)) }
      else
        match ParseUdp(x.payload, addr, false) { case None => None case Some(m) => Wrapped(x, Datagram(m)) }
  }

  /** The same message with one side's address and port, or the echo identifier, replaced. */
  function Readdressed(d: Delivery, source: bool, ip: Addr, port: u16): Delivery {
    var message :=
      match d.message
      case Echo(m) => Echo(m.(id := Be16(port)))
      case Stream(m) => Stream(if source then m.(srcPort := port) else m.(dstPort := port))
      case Datagram(m) => Datagram(if source then m.(srcPort := port) else m.(dstPort := port));
    if source then Delivery(ip, d.dst, message) else Delivery(d.src, ip, message)
  }

  // ---- What is summed -------------------------------------------------------------------------

  function Total(pkt: Bytes): nat
    requires |pkt| >= 20
  {
    Word(pkt[2], pkt[3])
  }

  /** The length of the message inside: UDP has a field of its own for it. */
  function Inner(pkt: Bytes): int
    requires |pkt| >= 26
  {
    if pkt[9] == UDP then Word(pkt[24], pkt[25]) else Total(pkt) - 20
  }

  /** A packet with room for its checksum, whose lengths lie within one another. */
  predicate Framed(pkt: Bytes) {
    && |pkt| >= 28 && (pkt[9] == ICMP || pkt[9] == TCP || pkt[9] == UDP) && ChecksumAt(pkt) > 0
    && ChecksumAt(pkt) - 18 <= Inner(pkt) && 8 <= Inner(pkt) <= Total(pkt) - 20 && Total(pkt) <= |pkt|
  }

  /** What the receiver's transport checksum covers. */
  function Checked(pkt: Bytes): Bytes
    requires Framed(pkt)
  {
    var body := pkt[20..20 + Inner(pkt)];
    if pkt[9] == ICMP then body else PseudoOf(AddrPair(pkt[12..16], pkt[16..20]), pkt[9], Inner(pkt)) + body
  }

  /** How much more a rewrite sums than the receiver does: the longer length, and the bytes after the message. */
  function Surplus(pkt: Bytes): nat
    requires Framed(pkt)
  {
    Total(pkt) - 20 - Inner(pkt) + Excess(pkt[20..], Inner(pkt))
  }

  lemma CoveredSplit(pkt: Bytes)
    requires Framed(pkt)
    ensures Sum16(Covered(pkt)) == Sum16(Checked(pkt)) + Surplus(pkt)
  {
    hide Sum16, Excess, Word;
    var n := Inner(pkt);
    SumSplit(pkt[20..], n);
    assert pkt[20..][..n] == pkt[20..20 + n];
    if pkt[9] != ICMP {
      PseudoSums(pkt, n);
      SumAppend(Pseudo(pkt, pkt[9]), pkt[20..]);
      SumAppend(PseudoOf(AddrPair(pkt[12..16], pkt[16..20]), pkt[9], n), pkt[20..20 + n]);
    }
  }

  /** The two pseudo headers differ by their lengths. */
  lemma PseudoSums(pkt: Bytes, n: nat)
    requires |pkt| >= 20 && n <= Total(pkt) - 20
    ensures Sum16(Pseudo(pkt, pkt[9])) ==
            Sum16(PseudoOf(AddrPair(pkt[12..16], pkt[16..20]), pkt[9], n)) + (Total(pkt) - 20 - n)
    ensures pkt[9] != 0 ==> Sum16(PseudoOf(AddrPair(pkt[12..16], pkt[16..20]), pkt[9], n)) > 0
  {
    hide Sum16;
    var t := Total(pkt) - 20;
    var head := pkt[12..20];
    var hi: byte, lo: byte := t / 256 % 256, t % 256;
    assert t < 0x1_0000 && hi == t / 256;
    assert Pseudo(pkt, pkt[9]) == head + ([0, pkt[9]] + [hi, lo]);
    assert pkt[12..16] + pkt[16..20] == head;
    assert PseudoOf(AddrPair(pkt[12..16], pkt[16..20]), pkt[9], n) == head + ([0, pkt[9]] + Be16(n));
    SumAround(head, 0, pkt[9], [hi, lo]);
    SumAround(head, 0, pkt[9], Be16(n));
    SumPair(hi, lo);
    SumPair(n / 256, n % 256);
  }

  lemma RemParts(x: nat, y: nat)
    requires Rem(x + y) == 0
    ensures Rem(x) == 0 <==> Rem(y) == 0
  {
    var q, a, b := (x + y) / 0xffff, x / 0xffff, y / 0xffff;
    if Rem(x) == 0 { ModUnique(y, 0xffff, q - a, 0); }
    if Rem(y) == 0 { ModUnique(x, 0xffff, q - b, 0); }
  }

  /** When the sum over everything verifies, the receiver's does if the surplus vanishes and something is left. */
  lemma ReceiverVerifies(pkt: Bytes)
    requires Framed(pkt) && Verifies(Covered(pkt))
    ensures Verifies(Checked(pkt)) <==> Rem(Surplus(pkt)) == 0 && Sum16(Checked(pkt)) > 0
    ensures Sum16(Checked(pkt)) + Surplus(pkt) > 0
  {
    hide Sum16, Covered, Checked, Surplus, Verifies, Inner;
    CoveredSplit(pkt);
    VerifiesIff(Covered(pkt));
    VerifiesIff(Checked(pkt));
    RemParts(Sum16(Checked(pkt)), Surplus(pkt));
  }

  lemma CheckedPositive(pkt: Bytes)
    requires Framed(pkt) && pkt[9] != ICMP
    ensures Sum16(Checked(pkt)) > 0
  {
    hide Sum16, Word;
    PseudoSums(pkt, Inner(pkt));
    SumAppend(PseudoOf(AddrPair(pkt[12..16], pkt[16..20]), pkt[9], Inner(pkt)), pkt[20..20 + Inner(pkt)]);
  }

  // ---- What a rewrite leaves ------------------------------------------------------------------

  /** r is pkt with one side's address and port replaced, whatever the checksums. */
  predicate Rewrites(r: Bytes, pkt: Bytes, source: bool, ip: Addr, port: u16) {
    && |r| == |pkt| >= 26
    && (forall i :: 0 <= i < |pkt| && !Touched(pkt, source, i) ==> r[i] == pkt[i])
    && (forall i :: 0 <= i < 4 ==> r[AddrAt(source) + i] == ip[i])
    && (PortAt(pkt, source) > 0 ==> Word(r[PortAt(pkt, source)], r[PortAt(pkt, source) + 1]) == port)
  }

  lemma SameFrame(r: Bytes, pkt: Bytes, source: bool, ip: Addr, port: u16)
    requires Rewrites(r, pkt, source, ip, port)
    ensures r[9] == pkt[9] && Total(r) == Total(pkt) && Inner(r) == Inner(pkt) && ChecksumAt(r) == ChecksumAt(pkt)
    ensures Framed(r) == Framed(pkt)
    ensures Framed(pkt) ==> Surplus(r) == Surplus(pkt)
  {
    hide Word, Sum16, Surplus;
    assert pkt[9] == UDP ==> r[24] == pkt[24] && r[25] == pkt[25];
    if Framed(pkt) {
      forall i | 20 + Inner(pkt) <= i < |pkt| ensures r[i] == pkt[i] {
      }
      SurplusBeyond(r, pkt);
    }
  }

  /** The surplus looks at nothing before the end of the message but the lengths. */
  lemma SurplusBeyond(a: Bytes, b: Bytes)
    requires Framed(a) && Framed(b) && |a| == |b| && Inner(a) == Inner(b) && Total(a) == Total(b)
    requires forall i :: 20 + Inner(a) <= i < |a| ==> a[i] == b[i]
    ensures Surplus(a) == Surplus(b)
  {
    hide Word, Sum16;
    var n := Inner(a);
    assert a[20..][n..] == a[20 + n..] == b[20 + n..] == b[20..][n..];
    if n < |a| - 20 {
      assert a[20..][n + 1..] == a[20 + n + 1..] == b[20 + n + 1..] == b[20..][n + 1..];
    }
  }

  // ---- Echoes ---------------------------------------------------------------------------------

  /** An echo that, under this identifier and with its checksum left out, is nothing but zeros. */
  predicate Silent(pkt: Bytes, id: u16)
    requires Framed(pkt)
  {
    pkt[20] == 0 && pkt[21] == 0 && id == 0 && forall i :: 26 <= i < Total(pkt) ==> pkt[i] == 0
  }

  /** Over zeros and a surplus of a multiple of 65535 the checksum comes out as zero. */
  lemma SilentChecksum(zero: Bytes)
    requires Framed(zero) && zero[9] == ICMP && Surplus(zero) > 0 && Rem(Surplus(zero)) == 0
    requires forall i :: 20 <= i < Total(zero) ==> zero[i] == 0
    ensures CheckSum(Covered(zero)) == 0
  {
    hide Fold, Excess, Word, Rem;
    var n := Inner(zero);
    SumSplit(zero[20..], n);
    SumZero(zero[20..][..n]);
    hide Sum16;
    FoldRem(Sum16(zero[20..]));
    SmallRem(Fold(Sum16(zero[20..])));
  }

  /** The checksum of an echo is that of the echo without it. */
  lemma EchoStamp(pkt: Bytes, source: bool, ip: Addr, port: u16, on: bool)
    requires |pkt| >= 28 && pkt[9] == ICMP
    ensures var r := NatChange(pkt, source, ip, port, on);
            Word(r[22], r[23]) == CheckSum(Covered(Put16(r, 22, 0)))
  {
    hide Put4, Put16, CheckSum, Covered, Word, Recalc4;
    var p0 := Put4(pkt, AddrAt(source), ip);
    Put4Touches(pkt, AddrAt(source), ip);
    Recalc4Touches(p0, on);
    var p1 := Recalc4(p0, on);
    PortTouches(p1, source, port);
    var p2 := PutPort(p1, source, port);
    var zero := Put16(p2, 22, 0);
    var c := CheckSum(Covered(zero));
    PutTwice(zero, 22, c, 0);
    PutTwice(p2, 22, 0, 0);
    PutTouches(zero, 22, c);
  }

  lemma EchoBody(r: Bytes)
    requires Framed(r) && r[9] == ICMP
    ensures Checked(r) == r[20..Total(r)]
    ensures Sum16(Checked(r)) == 0 <==> forall i :: 20 <= i < Total(r) ==> r[i] == 0
  {
    SumZero(r[20..Total(r)]);
    hide Sum16, Word;
    assert forall i :: 20 <= i < Total(r) ==> r[i] == r[20..Total(r)][i - 20];
  }

  lemma EchoSum(r: Bytes)
    requires Framed(r) && r[9] == ICMP && Word(r[22], r[23]) == CheckSum(Covered(Put16(r, 22, 0)))
    requires Surplus(r) > 0 && Rem(Surplus(r)) == 0
    ensures Sum16(Checked(r)) == 0 <==> forall i :: 20 <= i < Total(r) && !(22 <= i < 24) ==> r[i] == 0
  {
    hide CheckSum, Covered, Rem, Surplus, Sum16, Checked;
    EchoBody(r);
    if forall i :: 20 <= i < Total(r) && !(22 <= i < 24) ==> r[i] == 0 {
      var zero := Put16(r, 22, 0);
      SurplusBeyond(zero, r);
      SilentChecksum(zero);
      WordParts(r[22], r[23]);
    }
  }

  /** After a rewrite an echo sums to nothing exactly when it was silent and the surplus takes its checksum away. */
  lemma RewrittenEcho(pkt: Bytes, source: bool, ip: Addr, port: u16, on: bool)
    requires Framed(pkt) && pkt[9] == ICMP
    ensures var r := NatChange(pkt, source, ip, port, on);
            && Framed(r)
            && (Surplus(pkt) > 0 && Rem(Surplus(pkt)) == 0 ==> (Sum16(Checked(r)) == 0 <==> Silent(pkt, port)))
  {
    hide NatChange, CheckSum, Covered, Rem, Surplus, Sum16, Checked, Inner;
    var r := NatChange(pkt, source, ip, port, on);
    RewriteTouches(pkt, source, ip, port, on);
    SameFrame(r, pkt, source, ip, port);
    if Surplus(pkt) > 0 && Rem(Surplus(pkt)) == 0 {
      EchoStamp(pkt, source, ip, port, on);
      EchoSum(r);
      SameSilence(r, pkt, source, ip, port);
    }
  }

  lemma SameSilence(r: Bytes, pkt: Bytes, source: bool, ip: Addr, port: u16)
    requires Rewrites(r, pkt, source, ip, port) && Framed(pkt) && pkt[9] == ICMP && Total(r) == Total(pkt)
    ensures (forall i :: 20 <= i < Total(r) && !(22 <= i < 24) ==> r[i] == 0) <==> Silent(pkt, port)
  {
    WordParts(r[24], r[25]);
    assert forall i :: 26 <= i < |pkt| ==> r[i] == pkt[i];
    assert r[20] == pkt[20] && r[21] == pkt[21];
    assert port == 0 <==> r[24] == 0 && r[25] == 0;
    if forall i :: 20 <= i < Total(r) && !(22 <= i < 24) ==> r[i] == 0 {
      forall i | 26 <= i < Total(pkt) ensures pkt[i] == 0 { assert r[i] == 0; }
    }
  }

  // ---- Delivery -------------------------------------------------------------------------------

  lemma SaidFramed(pkt: Bytes)
    requires Said(pkt).Some?
    ensures Framed(pkt)
  {
    hide Word, Scan, Long;
    var x := ParseIpv4(pkt, false).value;
    assert x.payload == pkt[20..Total(pkt)];
    if x.proto == UDP { assert x.payload[4] == pkt[24] && x.payload[5] == pkt[25]; }
  }

  /** The checksums the receiver looks at verify. */
  predicate Passes(pkt: Bytes, on: bool)
    requires Framed(pkt)
  {
    (on ==> Verifies(pkt[..20])) && (on || pkt[9] == ICMP ==> Verifies(Checked(pkt)))
  }

  /** The receiver takes what a packet says when the checksums it looks at verify. */
  lemma DeliverIs(pkt: Bytes, on: bool)
    ensures Said(pkt) == None ==> Deliver(pkt, on) == None
    ensures Said(pkt).Some? ==> Framed(pkt) && Deliver(pkt, on) == if Passes(pkt, on) then Said(pkt) else None
  {
    if Said(pkt).Some? { SaidFramed(pkt); }
    hide Word, Scan, Long, Verifies, PseudoOf;
    if ParseIpv4(pkt, false).Some? {
      var x := ParseIpv4(pkt, false).value;
      assert x.payload == pkt[20..Total(pkt)];
      if x.proto == UDP && Said(pkt).Some? {
        assert x.payload[4] == pkt[24] && x.payload[5] == pkt[25];
        assert x.payload[..Inner(pkt)] == pkt[20..20 + Inner(pkt)];
      }
    }
  }

  /** The IPv4 layer sees the new address, and the bytes of the segment as the rewrite left them. */
  lemma RewrittenIpv4(r: Bytes, pkt: Bytes, source: bool, ip: Addr, port: u16)
    requires Rewrites(r, pkt, source, ip, port)
    ensures ParseIpv4(r, false).Some? <==> ParseIpv4(pkt, false).Some?
    ensures ParseIpv4(pkt, false).Some? ==>
              var x := ParseIpv4(pkt, false).value;
              ParseIpv4(r, false) ==
              Some(Ipv4(r[20..20 + |x.payload|], x.proto, if source then ip else x.src, if source then x.dst else ip))
  {
    hide Word;
    assert forall i :: 0 <= i < 10 ==> r[i] == pkt[i];
    if source {
      assert r[12..16] == ip && r[16..20] == pkt[16..20];
    } else {
      assert r[12..16] == pkt[12..16] && r[16..20] == ip;
    }
  }

  /** a is the segment b after a rewrite: its port and its checksum, at this place, may differ. */
  predicate SegmentRewritten(a: Bytes, b: Bytes, portAt: nat, sumAt: nat, port: u16) {
    && |a| == |b| && portAt + 2 <= |a|
    && (forall i :: 0 <= i < |a| && !(portAt <= i < portAt + 2) && !(sumAt <= i < sumAt + 2) ==> a[i] == b[i])
    && Word(a[portAt], a[portAt + 1]) == port
  }

  lemma RewrittenSegment(r: Bytes, pkt: Bytes, source: bool, ip: Addr, port: u16, n: nat)
    requires Rewrites(r, pkt, source, ip, port) && ChecksumAt(pkt) > 0 && PortAt(pkt, source) - 18 <= n <= |pkt| - 20
    ensures SegmentRewritten(r[20..20 + n], pkt[20..20 + n], PortAt(pkt, source) - 20, ChecksumAt(pkt) - 20, port)
  {
    hide Word;
  }

  lemma RewrittenEchoFields(a: Bytes, b: Bytes, port: u16)
    requires SegmentRewritten(a, b, 4, 2, port) && |b| >= 8
    ensures IcmpShaped(a) == IcmpShaped(b) && IcmpFields(a) == IcmpFields(b).(id := Be16(port))
  {
    WordParts(a[4], a[5]);
    hide Word;
    assert a[8..] == b[8..];
    assert a[4..6] == Be16(port);
  }

  lemma RewrittenDatagram(a: Bytes, b: Bytes, source: bool, port: u16, addr: AddrPair, addr': AddrPair)
    requires SegmentRewritten(a, b, if source then 0 else 2, 6, port)
    ensures match ParseUdp(b, addr, false)
            case None => ParseUdp(a, addr', false) == None
            case Some(m) => ParseUdp(a, addr', false) ==
                              Some(if source then m.(srcPort := port) else m.(dstPort := port))
  {
    hide Word;
    if |b| >= 8 && Word(b[4], b[5]) <= |b| && Word(b[4], b[5]) >= 8 {
      assert a[8..Word(b[4], b[5])] == b[8..Word(b[4], b[5])];
    }
  }

  lemma RewrittenStream(a: Bytes, b: Bytes, source: bool, port: u16, addr: AddrPair, addr': AddrPair)
    requires SegmentRewritten(a, b, if source then 0 else 2, 16, port)
    ensures match ParseTcp(b, addr, false)
            case None => ParseTcp(a, addr', false) == None
            case Some(m) => ParseTcp(a, addr', false) ==
                              Some(if source then m.(srcPort := port) else m.(dstPort := port))
  {
    hide Word, Long, Scan;
    if |b| >= 20 && b[12] / 16 * 4 <= |b| && b[12] / 16 * 4 >= 20 {
      var head := b[12] / 16 * 4;
      SameOptions(a, b, 20, head, 0);
      assert a[head..] == b[head..];
    }
  }

  lemma {:induction false} SameOptions(a: Bytes, b: Bytes, offset: nat, end: nat, mss: u16)
    requires |a| == |b| && 20 <= offset <= |a| && end <= |a|
    requires a[13] == b[13] && forall i :: 20 <= i < |a| ==> a[i] == b[i]
    ensures Scan(a, offset, end, mss) == Scan(b, offset, end, mss)
    decreases end - offset
  {
    hide Word, Syn;
    if offset >= end || b[offset] == 0 {
    } else if b[offset] == 1 {
      SameOptions(a, b, offset + 1, end, mss);
    } else if offset + 2 > end || b[offset + 1] < 2 || offset + b[offset + 1] > end {
    } else if b[offset] == 2 && (b[offset + 1] != 4 || Word(b[offset + 2], b[offset + 3]) == 0) {
    } else {
      SameOptions(a, b, offset + b[offset + 1], end,
                  if b[offset] == 2 && Syn(b[13]) then Word(b[offset + 2], b[offset + 3]) else mss);
    }
  }

  /** A rewritten packet says what it said before, from or to the new address and port. */
  lemma RewrittenSaid(r: Bytes, pkt: Bytes, source: bool, ip: Addr, port: u16)
    requires Rewrites(r, pkt, source, ip, port)
    ensures match Said(pkt)
            case None => Said(r) == None
            case Some(d) => Said(r) == Some(Readdressed(d, source, ip, port))
  {
    if Said(pkt).Some? || Said(r).Some? {
      EitherFramed(r, pkt, source, ip, port);
      RewrittenIpv4(r, pkt, source, ip, port);
      var x := ParseIpv4(pkt, false).value;
      var n := |x.payload|;
      assert x.payload == pkt[20..20 + n] && x.proto == pkt[9] && n == Total(pkt) - 20;
      RewrittenSegment(r, pkt, source, ip, port, n);
      hide Word, ParseIpv4, ParseTcp, ParseUdp, IcmpFields, IcmpShaped, Rewrites, Be16, SegmentRewritten;
      var a := r[20..20 + n];
      var addr, addr' := AddrPair(x.src, x.dst), if source then AddrPair(ip, x.dst) else AddrPair(x.src, ip);
      if x.proto == ICMP {
        RewrittenEchoFields(a, x.payload, port);
      } else if x.proto == TCP {
        RewrittenStream(a, x.payload, source, port, addr, addr');
      } else {
        RewrittenDatagram(a, x.payload, source, port, addr, addr');
      }
    }
  }

  lemma EitherFramed(r: Bytes, pkt: Bytes, source: bool, ip: Addr, port: u16)
    requires Rewrites(r, pkt, source, ip, port) && (Said(pkt).Some? || Said(r).Some?)
    ensures Framed(pkt) && ParseIpv4(pkt, false).Some?
  {
    hide Word, Framed, Rewrites;
    if Said(pkt).Some? { SaidFramed(pkt); } else { SaidFramed(r); }
    SameFrame(r, pkt, source, ip, port);
    RewrittenIpv4(r, pkt, source, ip, port);
  }

  // ---- The theorem ----------------------------------------------------------------------------

  /** What the receiver sums is a multiple of 65535 after a rewrite, and not nothing. */
  predicate Sums(pkt: Bytes, port: u16, on: bool)
    requires Framed(pkt)
  {
    && (on || pkt[9] == ICMP ==> Rem(Surplus(pkt)) == 0)
    && (pkt[9] == ICMP && Surplus(pkt) > 0 ==> !Silent(pkt, port))
  }

  lemma RewritePasses(pkt: Bytes, source: bool, ip: Addr, port: u16, on: bool)
    requires Framed(pkt)
    ensures var r := NatChange(pkt, source, ip, port, on);
            Framed(r) && (Passes(r, on) <==> Sums(pkt, port, on))
  {
    hide NatChange, Verifies, Covered, Checked, Surplus, Rem, Sum16, Silent, Inner, Word;
    var r := NatChange(pkt, source, ip, port, on);
    RewriteTouches(pkt, source, ip, port, on);
    assert Rewrites(r, pkt, source, ip, port);
    SameFrame(r, pkt, source, ip, port);
    RewriteVerifies(pkt, source, ip, port, on);
    if on || pkt[9] == ICMP { ReceiverVerifies(r); }
    if pkt[9] == ICMP {
      RewrittenEcho(pkt, source, ip, port, on);
    } else {
      CheckedPositive(r);
    }
  }

  /**
   * For every packet, source or destination, with checksums on or off: the receiver of the rewritten packet gets
   * what the packet said with exactly that side's address and port replaced, when the sums work out, and otherwise
   * nothing.
   */
  lemma RewriteDelivered(pkt: Bytes, source: bool, ip: Addr, port: u16, on: bool)
    ensures Said(pkt).Some? ==> Framed(pkt)
    ensures Deliver(NatChange(pkt, source, ip, port, on), on) ==
            if Said(pkt).Some? && Sums(pkt, port, on) then Some(Readdressed(Said(pkt).value, source, ip, port))
            else None
  {
    hide NatChange, Said, Deliver, Passes, Sums, Framed, Readdressed, Word;
    if Said(pkt).Some? { SaidFramed(pkt); }
    if |pkt| >= 26 {
      var r := NatChange(pkt, source, ip, port, on);
      RewriteTouches(pkt, source, ip, port, on);
      RewrittenSaid(r, pkt, source, ip, port);
      DeliverIs(r, on);
      if Said(pkt).Some? { RewritePasses(pkt, source, ip, port, on); }
    } else {
      ShortUnsaid(pkt, on);
      ShortUnchanged(pkt, source, ip, port, on);
    }
  }

  lemma ShortUnsaid(pkt: Bytes, on: bool)
    requires |pkt| < 26
    ensures Said(pkt) == None && Deliver(pkt, on) == None
  {
    hide Word;
  }

  lemma ShortUnchanged(pkt: Bytes, source: bool, ip: Addr, port: u16, on: bool)
    requires |pkt| < 26
    ensures NatChange(pkt, source, ip, port, on) == pkt
  {
  }

  // ---- Who gets through and who does not ------------------------------------------------------

  /** Nothing follows the message, inside the packet or after it. */
  predicate Whole(pkt: Bytes) {
    |pkt| >= 26 && Total(pkt) == |pkt| && Inner(pkt) == |pkt| - 20
  }

  /** A packet with nothing after its message always gets through. */
  lemma WholeDelivered(pkt: Bytes, source: bool, ip: Addr, port: u16, on: bool)
    requires Whole(pkt) && Said(pkt).Some?
    ensures Deliver(NatChange(pkt, source, ip, port, on), on) == Some(Readdressed(Said(pkt).value, source, ip, port))
  {
    hide NatChange, Said, Deliver, Readdressed, Word, Silent;
    RewriteDelivered(pkt, source, ip, port, on);
    assert pkt[20..][|pkt| - 20..] == [];
  }

  /** Padding after a packet's end means nothing to the receiver. */
  lemma PaddingIgnored(pkt: Bytes, padding: Bytes, on: bool)
    requires |pkt| >= 26 && Total(pkt) == |pkt| && |pkt| + |padding| <= 1500
    ensures Deliver(pkt + padding, on) == Deliver(pkt, on) && Said(pkt + padding) == Said(pkt)
  {
    hide Word, Verifies, ParseTcp, ParseUdp, ParseIcmp, IcmpShaped, IcmpFields;
    var p := pkt + padding;
    assert p[..20] == pkt[..20] && p[20..|pkt|] == pkt[20..|pkt|] && p[12..16] == pkt[12..16]
           && p[16..20] == pkt[16..20];
  }

  /**
   * A packet with nothing after its message, padded with the bytes 0 1: the receiver gets it as it is, and no longer
   * once it has been rewritten. An echo is lost whether checksums are on or off.
   */
  lemma PaddedLost(pkt: Bytes, source: bool, ip: Addr, port: u16, on: bool)
    requires Whole(pkt) && |pkt| % 2 == 0 && |pkt| <= 1498 && Deliver(pkt, on).Some? && (on || pkt[9] == ICMP)
    ensures Deliver(pkt + [0, 1], on) == Deliver(pkt, on)
    ensures Deliver(NatChange(pkt + [0, 1], source, ip, port, on), on) == None
  {
    hide NatChange, Said, Deliver, Readdressed, Word, Silent, Sum16;
    var p := pkt + [0, 1];
    PaddingIgnored(pkt, [0, 1], on);
    RewriteDelivered(p, source, ip, port, on);
    if Said(p).Some? {
      assert Inner(p) == Inner(pkt) && p[20..][Inner(p)..] == [0, 1];
      SumPair(0, 1);
      WordOf(1);
    }
  }

  /** An echo of zeros only: even padding that sums to 65535 loses it, when its identifier becomes 0. */
  lemma SilentEchoLost(pkt: Bytes, source: bool, ip: Addr, on: bool)
    requires Whole(pkt) && |pkt| % 2 == 0 && |pkt| <= 1498 && Deliver(pkt, on).Some? && pkt[9] == ICMP
    requires forall i :: 20 <= i < |pkt| && !(22 <= i < 26) ==> pkt[i] == 0
    ensures Deliver(pkt + [255, 255], on) == Deliver(pkt, on)
    ensures Deliver(NatChange(pkt + [255, 255], source, ip, 0, on), on) == None
  {
    hide NatChange, Said, Deliver, Readdressed, Word, Sum16;
    var p := pkt + [255, 255];
    PaddingIgnored(pkt, [255, 255], on);
    RewriteDelivered(p, source, ip, 0, on);
    if Said(p).Some? {
      assert Inner(p) == Inner(pkt) && p[20..][Inner(p)..] == [255, 255];
      SumPair(255, 255);
      AllOnes();
    }
  }

  lemma AllOnes()
    ensures Word(255, 255) == 0xffff
  {
  }

  /** A datagram shorter than the packet around it, with zeros after it, is lost by a rewrite with checksums on. */
  lemma ShortDatagramLost(pkt: Bytes, source: bool, ip: Addr, port: u16)
    requires |pkt| >= 28 && pkt[9] == UDP && Inner(pkt) < Total(pkt) - 20
    requires forall i :: 20 + Inner(pkt) <= i < |pkt| ==> pkt[i] == 0
    ensures Deliver(NatChange(pkt, source, ip, port, true), true) == None
  {
    hide NatChange, Said, Deliver, Readdressed, Word;
    RewriteDelivered(pkt, source, ip, port, true);
    if Said(pkt).Some? {
      var n := Inner(pkt);
      SumZero(pkt[20..][n..]);
      if n < |pkt| - 20 { SumZero(pkt[20..][n + 1..]); }
      hide Sum16;
      assert Surplus(pkt) == Total(pkt) - 20 - n;
      ModUnique(Surplus(pkt), 0xffff, 0, Surplus(pkt));
    }
  }

  /** Such datagrams exist, and the receiver gets them: any one built, with zeros after it. */
  lemma ShortDatagramDelivered(x: Udp, src: Addr, dst: Addr, id: u16, zeros: Bytes)
    requires |x.payload| + |zeros| <= 1472
    ensures var seg := BuildUdp(x, AddrPair(src, dst), true).value + zeros;
            |seg| <= 1480 &&
            var pkt := BuildIpv4(Ipv4(seg, UDP, src, dst), id, true).value;
            && Deliver(pkt, true) == Some(Delivery(src, dst, Datagram(x)))
            && pkt[9] == UDP && Inner(pkt) == |x.payload| + 8 && Total(pkt) - 20 == Inner(pkt) + |zeros|
            && pkt[20 + Inner(pkt)..] == zeros
  {
    hide ParseUdp, BuildUdp, ParseIpv4, CheckSum, Verifies, Word, Ipv4Header, Stamped, Put16;
    var addr := AddrPair(src, dst);
    UdpWithTail(x, addr, zeros);
    var seg := BuildUdp(x, addr, true).value;
    var y := Ipv4(seg + zeros, UDP, src, dst);
    Ipv4RoundTrip(y, id, true);
    StampedHead(y, id, true);
    var h := Stamped([], Ipv4Header(y, id), 10, true);
    var pkt := h + (seg + zeros);
    assert pkt[24] == seg[4] && pkt[25] == seg[5] && pkt[9] == UDP && pkt[2] == h[2] && pkt[3] == h[3];
    assert pkt[20 + |seg|..] == zeros;
  }
}
