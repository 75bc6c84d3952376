/** The rewriting functions as they run: packet bytes updated in place. */
module PacketRewriter {
  import opened Words
  import opened Checksum
  import opened NatRewrite

  /** The longest IPv4 packet. */
  const MAX_PACKET: nat := 0xffff

  method Write16(pkt: array<byte>, at: nat, v: u16)
    requires at + 2 <= pkt.Length
    modifies pkt
    ensures pkt[..] == Put16(old(pkt[..]), at, v)
    ensures forall i :: 0 <= i < pkt.Length && !(at <= i < at + 2) ==> pkt[i] == old(pkt[i])
  {
    pkt[at] := v / 256;
    pkt[at + 1] := v % 256;
  }

  method ReCalcIpv4CheckSum(pkt: array<byte>, on: bool)
    requires pkt.Length <= MAX_PACKET
    modifies pkt
    ensures pkt[..] == Recalc4(old(pkt[..]), on)
  {
    hide Put16, CheckSum;
    if pkt.Length < 20 { return; }
    Write16(pkt, 10, 0);
    if !on { return; }
    var sum := GetCheckSum(pkt[..20]);
    assert pkt[..20] == pkt[..][..20];
    Write16(pkt, 10, sum);
  }

  /** The bytes a TCP or UDP checksum covers, copied together. */
  method SumData(pkt: array<byte>, proto: byte) returns (data: Bytes)
    requires pkt.Length >= 20
    ensures data == Pseudo(pkt[..], proto) + pkt[..][20..]
  {
    var length: int := Word(pkt[2], pkt[3]) - 20;
    var fake := pkt[12..16];
    fake := fake + pkt[16..20];
    fake := fake + [0, proto];
    fake := fake + [length / 256 % 256, length % 256];
    data := fake + pkt[20..];
    assert pkt[12..16] + pkt[16..20] == pkt[..][12..20];
    assert pkt[20..] == pkt[..][20..];
  }

  method ReCalcIcmpCheckSum(pkt: array<byte>)
    requires 20 <= pkt.Length <= MAX_PACKET && pkt[9] == ICMP
    modifies pkt
    ensures forall on :: pkt[..] == RecalcTransport(old(pkt[..]), on)
  {
    hide CheckSum;
    if pkt.Length < 24 { return; }
    Write16(pkt, 22, 0);
    var sum := GetCheckSum(pkt[20..]);
    assert pkt[20..] == pkt[..][20..];
    Write16(pkt, 22, sum);
  }

  method ReCalcTcpCheckSum(pkt: array<byte>, on: bool)
    requires 20 <= pkt.Length <= MAX_PACKET && pkt[9] == TCP
    modifies pkt
    ensures pkt[..] == RecalcTransport(old(pkt[..]), on)
  {
    hide CheckSum, Pseudo;
    if pkt.Length < 38 { return; }
    Write16(pkt, 36, 0);
    if !on { return; }
    var data := SumData(pkt, TCP);
    var sum := GetCheckSum(data);
    Write16(pkt, 36, sum);
  }

  method ReCalcUdpCheckSum(pkt: array<byte>, on: bool)
    requires 20 <= pkt.Length <= MAX_PACKET && pkt[9] == UDP
    modifies pkt
    ensures pkt[..] == RecalcTransport(old(pkt[..]), on)
  {
    hide CheckSum, Pseudo;
    if pkt.Length < 28 { return; }
    Write16(pkt, 26, 0);
    if !on { return; }
    var data := SumData(pkt, UDP);
    var sum := GetCheckSum(data);
    Write16(pkt, 26, sum);
  }

  /** NatChangeSrc and NatChangeDst: address, header checksum, port, transport checksum, in that order. */
  method Change(pkt: array<byte>, source: bool, ip: Addr, port: u16, on: bool)
    requires pkt.Length <= MAX_PACKET
    modifies pkt
    ensures pkt[..] == NatChange(old(pkt[..]), source, ip, port, on)
  {
    hide Put16, CheckSum, Recalc4, RecalcTransport;
    if pkt.Length < 26 { return; }
    WriteAddr(pkt, AddrAt(source), ip);
    ReCalcIpv4CheckSum(pkt, on);
    if pkt[9] == ICMP {
      Write16(pkt, 24, port);
      ReCalcIcmpCheckSum(pkt);
    } else if pkt[9] == TCP {
      Write16(pkt, if source then 20 else 22, port);
      ReCalcTcpCheckSum(pkt, on);
    } else if pkt[9] == UDP {
      Write16(pkt, if source then 20 else 22, port);
      ReCalcUdpCheckSum(pkt, on);
    } else {
      NoTransport(pkt[..], on);
    }
  }

  method WriteAddr(pkt: array<byte>, at: nat, ip: Addr)
    requires at + 4 <= pkt.Length
    modifies pkt
    ensures pkt[..] == Put4(old(pkt[..]), at, ip)
  {
    pkt[at] := ip[0];
    pkt[at + 1] := ip[1];
    pkt[at + 2] := ip[2];
    pkt[at + 3] := ip[3];
  }

  /** Decrements the time to live and brings the header checksum up to date; refuses a packet at its last hop. */
  method HandleTtl(pkt: array<byte>, on: bool) returns (ok: bool)
    requires pkt.Length <= MAX_PACKET
    modifies pkt
    ensures ok <==> old(pkt.Length >= 9 && pkt[8] > 1)
    ensures !ok ==> pkt[..] == old(pkt[..])
    ensures ok ==> pkt[8] == old(pkt[8]) - 1 && SameBut(pkt[..], old(pkt[..])[8 := pkt[8]], 10, 2)
    ensures ok && on && pkt.Length >= 20 ==> Verifies(pkt[..20])
  {
    hide Recalc4, Verifies;
    if pkt.Length < 9 { return false; }
    if pkt[8] <= 1 { return false; }
    pkt[8] := pkt[8] - 1;
    ghost var p := pkt[..];
    ReCalcIpv4CheckSum(pkt, on);
    Recalc4Touches(p, on);
    if on && pkt.Length >= 20 {
      Recalc4Verifies(p);
      assert pkt[..20] == pkt[..][..20];
    }
    ok := true;
    assert pkt[..][8] == p[8];
  }

  lemma NoTransport(pkt: Bytes, on: bool)
    requires |pkt| >= 20 && pkt[9] != ICMP && pkt[9] != TCP && pkt[9] != UDP
    ensures RecalcTransport(pkt, on) == pkt
  {
  }
}
