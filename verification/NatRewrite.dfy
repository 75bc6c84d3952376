/** NAT rewriting of IPv4 packets: addresses, ports and the checksums that cover them. */
module NatRewrite {
  import opened Words
  import opened Checksum

  const ICMP: byte := 1
  const TCP: byte := 6
  const UDP: byte := 17

  type Addr = s: Bytes | |s| == 4 witness [0, 0, 0, 0]

  function Put4(pkt: Bytes, at: nat, a: Addr): (r: Bytes)
    requires at + 4 <= |pkt|
    ensures |r| == |pkt|
  {
    pkt[at := a[0]][at + 1 := a[1]][at + 2 := a[2]][at + 3 := a[3]]
  }

  // ---- Checksums of a packet ------------------------------------------------------------------

  function Recalc4(pkt: Bytes, on: bool): (r: Bytes)
    ensures |r| == |pkt|
  {
    if |pkt| < 20 then pkt
    else var zero := Put16(pkt, 10, 0); if on then Put16(zero, 10, CheckSum(zero[..20])) else zero
  }

  /** The pseudo header of a packet: addresses, protocol, and the length after the IPv4 header. */
  function Pseudo(pkt: Bytes, proto: byte): (r: Bytes)
    requires |pkt| >= 20
    ensures |r| == 12
  {
    var length := Word(pkt[2], pkt[3]) - 20;
    pkt[12..20] + [0, proto, length / 256 % 256, length % 256]
  }

  /** What the transport checksum of a packet is computed over. */
  function Covered(pkt: Bytes): Bytes
    requires |pkt| >= 20
  {
    if pkt[9] == ICMP then pkt[20..] else Pseudo(pkt, pkt[9]) + pkt[20..]
  }

  /** Where the transport checksum lies; 0 when the packet has none. */
  function ChecksumAt(pkt: Bytes): (at: nat)
    requires |pkt| >= 20
    ensures at > 0 ==> 20 < at && at + 2 <= |pkt|
  {
    if pkt[9] == ICMP && |pkt| >= 24 then 22
    else if pkt[9] == TCP && |pkt| >= 38 then 36
    else if pkt[9] == UDP && |pkt| >= 28 then 26
    else 0
  }

  /** ReCalcIcmpCheckSum, ReCalcTcpCheckSum or ReCalcUdpCheckSum; the first does not look at the switch. */
  function RecalcTransport(pkt: Bytes, on: bool): (r: Bytes)
    requires |pkt| >= 20
    ensures |r| == |pkt|
  {
    var at := ChecksumAt(pkt);
    if at == 0 then pkt
    else var zero := Put16(pkt, at, 0);
         if on || pkt[9] == ICMP then Put16(zero, at, CheckSum(Covered(zero))) else zero
  }

  function Finish(pkt: Bytes, on: bool): (r: Bytes)
    requires |pkt| >= 20
    ensures |r| == |pkt|
  {
    RecalcTransport(Recalc4(pkt, on), on)
  }

  // ---- Rewriting ------------------------------------------------------------------------------

  function PortAt(pkt: Bytes, source: bool): nat
    requires |pkt| >= 20
  {
    if pkt[9] == ICMP then 24 else if pkt[9] == TCP || pkt[9] == UDP then (if source then 20 else 22) else 0
  }

  function AddrAt(source: bool): nat {
    if source then 12 else 16
  }

  function PutPort(pkt: Bytes, source: bool, port: u16): (r: Bytes)
    requires |pkt| >= 26
    ensures |r| == |pkt|
  {
    if PortAt(pkt, source) == 0 then pkt else Put16(pkt, PortAt(pkt, source), port)
  }

  /** NatChangeSrc and NatChangeDst, step by step. */
  function NatChange(pkt: Bytes, source: bool, ip: Addr, port: u16, on: bool): (r: Bytes)
    ensures |r| == |pkt|
  {
    if |pkt| < 26 then pkt
    else RecalcTransport(PutPort(Recalc4(Put4(pkt, AddrAt(source), ip), on), source, port), on)
  }

  // ---- The header checksum --------------------------------------------------------------------

  lemma PutTake(pkt: Bytes, at: nat, v: u16, n: nat)
    requires at + 2 <= n <= |pkt|
    ensures Put16(pkt, at, v)[..n] == Put16(pkt[..n], at, v) && Put16(pkt, at, v)[n..] == pkt[n..]
  {
  }

  lemma PutBeyond(pkt: Bytes, at: nat, v: u16, n: nat)
    requires n <= at && at + 2 <= |pkt|
    ensures Put16(pkt, at, v)[..n] == pkt[..n] && Put16(pkt, at, v)[n..] == Put16(pkt[n..], at - n, v)
  {
  }

  lemma Recalc4Verifies(pkt: Bytes)
    requires |pkt| >= 20
    ensures Verifies(Recalc4(pkt, true)[..20]) && Recalc4(pkt, true)[20..] == pkt[20..]
  {
    hide Put16, CheckSum;
    var zero := Put16(pkt, 10, 0);
    PutTake(pkt, 10, 0, 20);
    PutTake(zero, 10, CheckSum(zero[..20]), 20);
    SealedVerifies(pkt[..20], 10);
  }

  lemma RecalcTransportHead(pkt: Bytes, on: bool)
    requires |pkt| >= 20
    ensures RecalcTransport(pkt, on)[..20] == pkt[..20]
  {
    hide Put16, CheckSum, Covered;
    var at := ChecksumAt(pkt);
    if at > 0 {
      var zero := Put16(pkt, at, 0);
      PutBeyond(pkt, at, 0, 20);
      PutBeyond(zero, at, CheckSum(Covered(zero)), 20);
    }
  }

  // ---- The transport checksum -----------------------------------------------------------------

  /** Where the checksum lies in what it covers. */
  function CoveredAt(pkt: Bytes): nat
    requires |pkt| >= 20 && ChecksumAt(pkt) > 0
  {
    if pkt[9] == ICMP then 2 else ChecksumAt(pkt) - 20 + 12
  }

  lemma CoveredPut(pkt: Bytes, v: u16)
    requires |pkt| >= 20 && ChecksumAt(pkt) > 0
    ensures ChecksumAt(Put16(pkt, ChecksumAt(pkt), v)) == ChecksumAt(pkt)
    ensures CoveredAt(pkt) + 2 <= |Covered(pkt)| && CoveredAt(pkt) % 2 == 0
    ensures Covered(Put16(pkt, ChecksumAt(pkt), v)) == Put16(Covered(pkt), CoveredAt(pkt), v)
  {
    hide Put16;
    var at := ChecksumAt(pkt);
    var r := Put16(pkt, at, v);
    PutBeyond(pkt, at, v, 20);
    PutHead(pkt, at, v);
    if pkt[9] != ICMP {
      AppendPut(Pseudo(pkt, pkt[9]), pkt[20..], at - 20, v);
    }
  }

  lemma PutHead(pkt: Bytes, at: nat, v: u16)
    requires 20 <= at && at + 2 <= |pkt|
    ensures Put16(pkt, at, v)[9] == pkt[9] && forall proto :: Pseudo(Put16(pkt, at, v), proto) == Pseudo(pkt, proto)
  {
    assert Put16(pkt, at, v)[12..20] == pkt[12..20];
  }

  lemma AppendPut(a: Bytes, b: Bytes, at: nat, v: u16)
    requires at + 2 <= |b|
    ensures a + Put16(b, at, v) == Put16(a + b, |a| + at, v)
  {
  }

  lemma TransportVerifies(pkt: Bytes, on: bool)
    requires |pkt| >= 20 && ChecksumAt(pkt) > 0 && (on || pkt[9] == ICMP)
    ensures Verifies(Covered(RecalcTransport(pkt, on)))
  {
    hide Put16, CheckSum, Covered, ChecksumAt, CoveredAt, Verifies;
    var at := ChecksumAt(pkt);
    var zero := Put16(pkt, at, 0);
    assert zero[9] == pkt[9] by { PutProto(pkt, 0); }
    CoveredPut(pkt, 0);
    CoveredPut(zero, CheckSum(Covered(zero)));
    assert CoveredAt(zero) == CoveredAt(pkt) by { CoveredSame(pkt, zero); }
    SealedVerifies(Covered(pkt), CoveredAt(pkt));
  }

  lemma PutProto(pkt: Bytes, v: u16)
    requires |pkt| >= 20 && ChecksumAt(pkt) > 0
    ensures Put16(pkt, ChecksumAt(pkt), v)[9] == pkt[9]
  {
  }

  lemma CoveredSame(a: Bytes, b: Bytes)
    requires |a| == |b| >= 20 && a[9] == b[9] && ChecksumAt(a) > 0
    ensures ChecksumAt(b) == ChecksumAt(a) && CoveredAt(b) == CoveredAt(a)
  {
  }

  // ---- Both together --------------------------------------------------------------------------

  /**
   * After a rewrite the header checksum verifies when checksums are on, and the transport checksum over everything
   * after the header verifies when it was brought up to date: always for ICMP.
   */
  lemma RewriteVerifies(pkt: Bytes, source: bool, ip: Addr, port: u16, on: bool)
    requires |pkt| >= 26
    ensures var r := NatChange(pkt, source, ip, port, on);
            && (on ==> Verifies(r[..20]))
            && (ChecksumAt(r) > 0 && (on || r[9] == ICMP) ==> Verifies(Covered(r)))
  {
    hide Put16, CheckSum, Verifies, Recalc4, RecalcTransport, Covered, ChecksumAt;
    var p1 := Recalc4(Put4(pkt, AddrAt(source), ip), on);
    if on { Recalc4Verifies(Put4(pkt, AddrAt(source), ip)); }
    var p2 := PutPort(p1, source, port);
    assert p2[..20] == p1[..20] by { if PortAt(p1, source) > 0 { PutBeyond(p1, PortAt(p1, source), port, 20); } }
    RecalcTransportHead(p2, on);
    var r := RecalcTransport(p2, on);
    assert r[9] == p2[9] by { assert r[9] == r[..20][9] && p2[9] == p2[..20][9]; }
    assert ChecksumAt(r) == ChecksumAt(p2) by { SameField(r, p2); }
    if ChecksumAt(p2) > 0 && (on || r[9] == ICMP) { TransportVerifies(p2, on); }
  }

  lemma SameField(a: Bytes, b: Bytes)
    requires |a| == |b| >= 20 && a[9] == b[9]
    ensures ChecksumAt(a) == ChecksumAt(b)
  {
  }

  // ---- What changes, and undoing it -----------------------------------------------------------

  /** The bytes a rewrite may change: one address, one port and the two checksums. */
  predicate Touched(pkt: Bytes, source: bool, i: nat)
    requires |pkt| >= 26
  {
    || AddrAt(source) <= i < AddrAt(source) + 4
    || 10 <= i < 12
    || (PortAt(pkt, source) > 0 && PortAt(pkt, source) <= i < PortAt(pkt, source) + 2)
    || (ChecksumAt(pkt) > 0 && ChecksumAt(pkt) <= i < ChecksumAt(pkt) + 2)
  }

  /** a and b agree outside the n bytes from place at. */
  predicate SameBut(a: Bytes, b: Bytes, at: nat, n: nat) {
    |a| == |b| && forall i :: 0 <= i < |a| && !(at <= i < at + n) ==> a[i] == b[i]
  }

  lemma PutTouches(pkt: Bytes, at: nat, v: u16)
    requires at + 2 <= |pkt|
    ensures SameBut(Put16(pkt, at, v), pkt, at, 2) && Word(Put16(pkt, at, v)[at], Put16(pkt, at, v)[at + 1]) == v
  {
    WordOf(v);
  }

  lemma Put4Touches(pkt: Bytes, at: nat, a: Addr)
    requires at + 4 <= |pkt|
    ensures SameBut(Put4(pkt, at, a), pkt, at, 4) && forall i :: 0 <= i < 4 ==> Put4(pkt, at, a)[at + i] == a[i]
  {
  }

  lemma Recalc4Touches(pkt: Bytes, on: bool)
    ensures SameBut(Recalc4(pkt, on), pkt, 10, 2)
  {
    hide Put16, CheckSum;
    if |pkt| >= 20 {
      PutTouches(pkt, 10, 0);
      PutTouches(Put16(pkt, 10, 0), 10, CheckSum(Put16(pkt, 10, 0)[..20]));
    }
  }

  lemma TransportTouches(pkt: Bytes, on: bool)
    requires |pkt| >= 20
    ensures SameBut(RecalcTransport(pkt, on), pkt, ChecksumAt(pkt), if ChecksumAt(pkt) > 0 then 2 else 0)
  {
    hide Put16, CheckSum, Covered, ChecksumAt;
    var at := ChecksumAt(pkt);
    if at > 0 {
      PutTouches(pkt, at, 0);
      PutTouches(Put16(pkt, at, 0), at, CheckSum(Covered(Put16(pkt, at, 0))));
    }
  }

  lemma PortTouches(pkt: Bytes, source: bool, port: u16)
    requires |pkt| >= 26
    ensures var at := PortAt(pkt, source);
            && SameBut(PutPort(pkt, source, port), pkt, at, if at > 0 then 2 else 0)
            && (at > 0 ==> Word(PutPort(pkt, source, port)[at], PutPort(pkt, source, port)[at + 1]) == port)
  {
    hide Put16;
    if PortAt(pkt, source) > 0 { PutTouches(pkt, PortAt(pkt, source), port); }
  }

  /** A rewrite changes one address, one port and the two checksums, and no other byte. */
  lemma RewriteTouches(pkt: Bytes, source: bool, ip: Addr, port: u16, on: bool)
    requires |pkt| >= 26
    ensures var r := NatChange(pkt, source, ip, port, on);
            && (forall i :: 0 <= i < |pkt| && !Touched(pkt, source, i) ==> r[i] == pkt[i])
            && (forall i :: 0 <= i < 4 ==> r[AddrAt(source) + i] == ip[i])
            && (PortAt(pkt, source) > 0 ==> Word(r[PortAt(pkt, source)], r[PortAt(pkt, source) + 1]) == port)
  {
    hide Put4, Put16, PutPort, Recalc4, RecalcTransport, Word;
    var p0 := Put4(pkt, AddrAt(source), ip);
    Put4Touches(pkt, AddrAt(source), ip);
    Recalc4Touches(p0, on);
    var p1 := Recalc4(p0, on);
    PortTouches(p1, source, port);
    var p2 := PutPort(p1, source, port);
    TransportTouches(p2, on);
  }

  /** Address and port written, with no checksum brought up to date. */
  function Written(pkt: Bytes, source: bool, ip: Addr, port: u16): (r: Bytes)
    requires |pkt| >= 26
    ensures |r| == |pkt|
  {
    PutPort(Put4(pkt, AddrAt(source), ip), source, port)
  }

  function Blank(pkt: Bytes): (r: Bytes)
    requires |pkt| >= 20
    ensures |r| == |pkt|
  {
    var p := Put16(pkt, 10, 0);
    if ChecksumAt(pkt) > 0 then Put16(p, ChecksumAt(pkt), 0) else p
  }

  lemma PutsCommute(pkt: Bytes, a: nat, v: u16, b: nat, w: u16)
    requires a + 2 <= b && b + 2 <= |pkt|
    ensures Put16(Put16(pkt, a, v), b, w) == Put16(Put16(pkt, b, w), a, v)
  {
  }

  lemma PutTwice(pkt: Bytes, a: nat, v: u16, w: u16)
    requires a + 2 <= |pkt|
    ensures Put16(Put16(pkt, a, v), a, w) == Put16(pkt, a, w)
  {
  }

  /** The header checksum neither reads nor writes anything beyond the header. */
  lemma Recalc4Beyond(pkt: Bytes, on: bool, at: nat, v: u16)
    requires 20 <= at && at + 2 <= |pkt|
    ensures Recalc4(Put16(pkt, at, v), on) == Put16(Recalc4(pkt, on), at, v)
  {
    hide Put16, CheckSum;
    PutsCommute(pkt, 10, 0, at, v);
    PutBeyond(Put16(pkt, 10, 0), at, v, 20);
    PutsCommute(Put16(pkt, 10, 0), 10, CheckSum(Put16(pkt, 10, 0)[..20]), at, v);
  }

  lemma Recalc4Blank(pkt: Bytes, on: bool)
    requires |pkt| >= 20
    ensures Recalc4(Put16(pkt, 10, 0), on) == Recalc4(pkt, on)
  {
    hide Put16, CheckSum;
    PutTwice(pkt, 10, 0, 0);
  }

  /** Bringing the checksums up to date forgets what they were. */
  lemma FinishBlank(pkt: Bytes, on: bool)
    requires |pkt| >= 20
    ensures Finish(Blank(pkt), on) == Finish(pkt, on)
  {
    hide Put16, CheckSum, Covered, Recalc4, ChecksumAt;
    var at := ChecksumAt(pkt);
    var p := Put16(pkt, 10, 0);
    Recalc4Blank(pkt, on);
    var q := Recalc4(pkt, on);
    Recalc4Touches(pkt, on);
    SameField(q, pkt);
    if at > 0 {
      Recalc4Beyond(p, on, at, 0);
      PutTwice(q, at, 0, 0);
      PutTouches(q, at, 0);
      SameField(Put16(q, at, 0), q);
    }
  }

  lemma RewriteIsFinish(pkt: Bytes, source: bool, ip: Addr, port: u16, on: bool)
    requires |pkt| >= 26
    ensures NatChange(pkt, source, ip, port, on) == Finish(Written(pkt, source, ip, port), on)
  {
    hide Put4, Put16, Recalc4, RecalcTransport;
    var p := Put4(pkt, AddrAt(source), ip);
    Recalc4Touches(p, on);
    if PortAt(p, source) > 0 { Recalc4Beyond(p, on, PortAt(p, source), port); }
  }

  /** Only the address, the port and the checksums can differ from one rewrite to the next. */
  lemma RewrittenBlank(pkt: Bytes, source: bool, ip: Addr, port: u16, ip': Addr, port': u16, on: bool)
    requires |pkt| >= 26
    ensures var r := NatChange(pkt, source, ip', port', on);
            && Blank(Written(r, source, ip, port)) == Blank(Written(pkt, source, ip, port))
  {
    hide NatChange, Word;
    RewriteTouches(pkt, source, ip', port', on);
    var r := NatChange(pkt, source, ip', port', on);
    BlankAgree(r, pkt, source, ip, port);
  }

  lemma BlankAgree(r: Bytes, pkt: Bytes, source: bool, ip: Addr, port: u16)
    requires |r| == |pkt| >= 26
    requires forall i :: 0 <= i < |pkt| && !Touched(pkt, source, i) ==> r[i] == pkt[i]
    ensures Blank(Written(r, source, ip, port)) == Blank(Written(pkt, source, ip, port))
  {
    hide Word;
    var a, b := Written(r, source, ip, port), Written(pkt, source, ip, port);
    WrittenAt(r, source, ip, port);
    WrittenAt(pkt, source, ip, port);
    assert r[9] == pkt[9];
    forall i | 0 <= i < |a| && !(10 <= i < 12) && !(ChecksumAt(pkt) > 0 && ChecksumAt(pkt) <= i < ChecksumAt(pkt) + 2)
      ensures a[i] == b[i] {
    }
    hide Written;
    BlankAt(a);
    BlankAt(b);
  }

  lemma WrittenAt(pkt: Bytes, source: bool, ip: Addr, port: u16)
    requires |pkt| >= 26
    ensures var r, p := Written(pkt, source, ip, port), PortAt(pkt, source);
            && r[9] == pkt[9]
            && forall i :: 0 <= i < |pkt| ==>
                 r[i] == if AddrAt(source) <= i < AddrAt(source) + 4 then ip[i - AddrAt(source)]
                         else if p > 0 && i == p then port / 256 else if p > 0 && i == p + 1 then port % 256 else pkt[i]
  {
  }

  lemma BlankAt(pkt: Bytes)
    requires |pkt| >= 20
    ensures forall i :: 0 <= i < |pkt| ==>
              Blank(pkt)[i] == if 10 <= i < 12 || (ChecksumAt(pkt) > 0 && ChecksumAt(pkt) <= i < ChecksumAt(pkt) + 2)
                               then 0 else pkt[i]
  {
    hide ChecksumAt;
  }

  /** A second rewrite of the same side undoes the first: only the last one counts. */
  lemma LastRewriteCounts(pkt: Bytes, source: bool, ip: Addr, port: u16, ip': Addr, port': u16, on: bool)
    requires |pkt| >= 26
    ensures NatChange(NatChange(pkt, source, ip', port', on), source, ip, port, on) ==
              NatChange(pkt, source, ip, port, on)
  {
    hide NatChange, Written, Blank, Finish;
    var r := NatChange(pkt, source, ip', port', on);
    RewrittenBlank(pkt, source, ip, port, ip', port', on);
    RewriteIsFinish(r, source, ip, port, on);
    RewriteIsFinish(pkt, source, ip, port, on);
    FinishBlank(Written(r, source, ip, port), on);
    FinishBlank(Written(pkt, source, ip, port), on);
  }

  /** The address and port a packet has. */
  predicate Has(pkt: Bytes, source: bool, ip: Addr, port: u16)
    requires |pkt| >= 26
  {
    && pkt[AddrAt(source)..AddrAt(source) + 4] == ip
    && (PortAt(pkt, source) > 0 ==> Word(pkt[PortAt(pkt, source)], pkt[PortAt(pkt, source) + 1]) == port)
  }

  /** Rewriting a packet with current checksums there and back restores it byte for byte. */
  lemma RewriteBack(pkt: Bytes, source: bool, ip: Addr, port: u16, ip': Addr, port': u16, on: bool)
    requires |pkt| >= 26 && Finish(pkt, on) == pkt && Has(pkt, source, ip, port)
    ensures NatChange(NatChange(pkt, source, ip', port', on), source, ip, port, on) == pkt
  {
    hide NatChange, Finish;
    LastRewriteCounts(pkt, source, ip, port, ip', port', on);
    RewriteIsFinish(pkt, source, ip, port, on);
    OwnWritten(pkt, source, ip, port);
  }

  lemma OwnWritten(pkt: Bytes, source: bool, ip: Addr, port: u16)
    requires |pkt| >= 26 && Has(pkt, source, ip, port)
    ensures Written(pkt, source, ip, port) == pkt
  {
    WrittenAt(pkt, source, ip, port);
    hide Written;
    var a := AddrAt(source);
    assert forall i :: 0 <= i < 4 ==> ip[i] == pkt[a..a + 4][i] == pkt[a + i];
    if PortAt(pkt, source) > 0 { WordParts(pkt[PortAt(pkt, source)], pkt[PortAt(pkt, source) + 1]); }
    var r := Written(pkt, source, ip, port);
    forall i | 0 <= i < |pkt| ensures r[i] == pkt[i] {
      if a <= i < a + 4 { assert ip[i - a] == pkt[a + (i - a)]; }
    }
  }

  lemma WordParts(hi: byte, lo: byte)
    ensures Word(hi, lo) / 256 == hi && Word(hi, lo) % 256 == lo
  {
  }
}
