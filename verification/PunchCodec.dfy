/** The punch control packet: fifteen bytes, parsed strictly. */
module PunchCodec {
  import opened Words
  import opened Options
  import opened Checksum
  import opened PacketCodec
  import opened Punch

  datatype Packet = Packet(kind: Kind, conv: u64, tid: u32)

  function KindByte(k: Kind): byte {
    match k
    case Check => 1
    case CheckAck => 2
    case Confirm => 3
    case ConfirmAck => 4
  }

  function ByteKind(b: byte): Option<Kind> {
    if b == 1 then Some(Check) else if b == 2 then Some(CheckAck) else if b == 3 then Some(Confirm)
    else if b == 4 then Some(ConfirmAck) else None
  }

  function Be64(v: u64): (b: Bytes)
    ensures |b| == 8
  {
    Be32(v / 0x1_0000_0000) + Be32(v % 0x1_0000_0000)
  }

  function Read32(b: Bytes): u32
    requires |b| == 4
  {
    Long(b[0], b[1], b[2], b[3])
  }

  function Read64(b: Bytes): u64
    requires |b| == 8
  {
    Read32(b[..4]) * 0x1_0000_0000 + Read32(b[4..])
  }

  function Build(p: Packet): (b: Bytes)
    ensures |b| == 15
  {
    [72, 80, KindByte(p.kind)] + Be64(p.conv) + Be32(p.tid)
  }

  function Parse(b: Bytes): Option<Packet> {
    if |b| != 15 || b[0] != 72 || b[1] != 80 then None else
    match ByteKind(b[2])
    case None => None
    case Some(kind) => Some(Packet(kind, Read64(b[3..11]), Read32(b[11..15])))
  }

  lemma Write32(b: Bytes)
    requires |b| == 4
    ensures Be32(Read32(b)) == b
  {
    hide Word;
    Halves(Word(b[0], b[1]), Word(b[2], b[3]));
    WordBytes(b[0], b[1]);
    WordBytes(b[2], b[3]);
  }

  lemma Halves(hi: u16, lo: u16)
    ensures (hi * 0x1_0000 + lo) / 0x1_0000 == hi && (hi * 0x1_0000 + lo) % 0x1_0000 == lo
  {
  }

  lemma WordBytes(hi: byte, lo: byte)
    ensures Be16(Word(hi, lo)) == [hi, lo]
  {
  }

  lemma Read64Back(v: u64)
    ensures Read64(Be64(v)) == v
  {
    Be32Reads(v / 0x1_0000_0000);
    Be32Reads(v % 0x1_0000_0000);
    hide Be32, Long;
    assert Be64(v)[..4] == Be32(v / 0x1_0000_0000) && Be64(v)[4..] == Be32(v % 0x1_0000_0000);
  }

  lemma Write64(b: Bytes)
    requires |b| == 8
    ensures Be64(Read64(b)) == b
  {
    hide Be32, Read32;
    Write32(b[..4]);
    Write32(b[4..]);
    LongHalves(Read32(b[..4]), Read32(b[4..]));
    assert b[..4] + b[4..] == b;
  }

  lemma LongHalves(hi: u32, lo: u32)
    ensures (hi * 0x1_0000_0000 + lo) / 0x1_0000_0000 == hi && (hi * 0x1_0000_0000 + lo) % 0x1_0000_0000 == lo
  {
  }

  /** Parsing undoes building. */
  lemma ParseBuilt(p: Packet)
    ensures Parse(Build(p)) == Some(p)
  {
    Read64Back(p.conv);
    Be32Reads(p.tid);
    hide Be64, Be32, Read64, Long;
    var b := Build(p);
    assert b[3..11] == Be64(p.conv) && b[11..15] == Be32(p.tid);
  }

  /** Nothing else parses: a packet accepted is the one its fields build. */
  lemma BuildParsed(b: Bytes)
    ensures Parse(b).Some? ==> Build(Parse(b).value) == b
  {
    if Parse(b).Some? {
      Write64(b[3..11]);
      Write32(b[11..15]);
      hide Be64, Be32, Read64, Read32;
      assert b == b[..3] + b[3..11] + b[11..15];
      assert b[..3] == [72, 80, b[2]];
    }
  }
}
