/** Segments as bytes: the header layout, the decoding loop of Input, and the packing of a flush into packets. */
module KcpWire {
  import opened Words
  import opened Kcp

  const BASE_OVERHEAD: nat := 28
  const CHECK_OVERHEAD: nat := 4

  /** The conversation, and whether segments carry a payload check computed by hash. */
  datatype Config = Config(conv: u64, check: bool, hash: seq<byte> -> u32)

  function Overhead(cfg: Config): nat {
    if cfg.check then BASE_OVERHEAD + CHECK_OVERHEAD else BASE_OVERHEAD
  }

  function CommandByte(c: Command): byte {
    match c
    case Push => 81
    case Ack => 82
    case Wask => 83
    case Wins => 84
  }

  function ByteCommand(b: byte): Command {
    if b == 81 then Push else if b == 82 then Ack else if b == 83 then Wask else Wins
  }

  // ---- Encoding -------------------------------------------------------------------------------

  /** A segment whose length field can hold its length. */
  predicate Encodable(seg: Segment) {
    |seg.fragment.data| < 0x1_0000_0000
  }

  function CheckField(cfg: Config, seg: Segment): seq<byte> {
    if cfg.check then ToLE(if seg.cmd == Push then cfg.hash(seg.fragment.data) else 0, 4) else []
  }

  function Encode(cfg: Config, seg: Segment): (b: seq<byte>)
    ensures |b| == Overhead(cfg) + |seg.fragment.data|
  {
    ToLE(cfg.conv, 8) + [CommandByte(seg.cmd), seg.fragment.frg] + ToLE(seg.wnd, 2) + ToLE(seg.ts, 4) + ToLE(seg.sn, 4)
    + ToLE(seg.una, 4) + ToLE(|seg.fragment.data|, 4) + CheckField(cfg, seg) + seg.fragment.data
  }

  function Encodings(cfg: Config, segs: seq<Segment>): seq<byte> {
    if segs == [] then [] else Encode(cfg, segs[0]) + Encodings(cfg, segs[1..])
  }

  // ---- Decoding -------------------------------------------------------------------------------

  datatype Parsed = Bad(code: int) | Fine(seg: Segment, next: nat)

  function Field16(b: seq<byte>, at: nat): u16
    requires at + 2 <= |b|
  {
    Pow256Values();
    FromLEBound(b[at..at + 2]);
    FromLE(b[at..at + 2])
  }

  function Field32(b: seq<byte>, at: nat): u32
    requires at + 4 <= |b|
  {
    Pow256Values();
    FromLEBound(b[at..at + 4]);
    FromLE(b[at..at + 4])
  }

  lemma {:induction false} FromLEBound(b: seq<byte>)
    ensures FromLE(b) < Pow256(|b|)
  {
    if b != [] {
      FromLEBound(b[1..]);
    }
  }

  /** One turn of Input's loop: the segment at the front of b, or the code Input fails with. */
  function ParseOne(cfg: Config, b: seq<byte>): (p: Parsed)
    requires |b| >= Overhead(cfg)
    ensures p.Fine? ==> Overhead(cfg) <= p.next <= |b|
  {
    var h := Overhead(cfg);
    var length := Field32(b, 24);
    if FromLE(b[0..8]) != cfg.conv then Bad(-1)
    else if length > |b| - h then Bad(-2)
    else if !(81 <= b[8] <= 84) then Bad(-3)
    else if cfg.check && b[8] == 81 && Field32(b, 28) != cfg.hash(b[h..h + length]) then Bad(-4)
    else Fine(Segment(ByteCommand(b[8]), Field16(b, 10), Field32(b, 12), Field32(b, 16), Field32(b, 20),
                      Fragment(b[9], b[h..h + length])), h + length)
  }

  datatype Decoded = Decoded(segs: seq<Segment>, code: int)

  function Decode(cfg: Config, b: seq<byte>): Decoded
    decreases |b|
  {
    if |b| < Overhead(cfg) then Decoded([], 0) else
    match ParseOne(cfg, b)
    case Bad(code) => Decoded([], code)
    case Fine(seg, next) =>
      var d := Decode(cfg, b[next..]);
      Decoded([seg] + d.segs, d.code)
  }

  lemma ReadsBack(n: nat, k: nat)
    requires (k == 2 && n < 0x1_0000) || (k == 4 && n < 0x1_0000_0000) || (k == 8 && n < 0x1_0000_0000_0000_0000)
    ensures FromLE(ToLE(n, k)) == n
  {
    Pow256Values();
    LERoundTrip(n, k);
  }

  /** Where each field of an encoded segment lies. */
  lemma EncodedFields(cfg: Config, seg: Segment, rest: seq<byte>)
    ensures var b := Encode(cfg, seg) + rest;
            && b[0..8] == ToLE(cfg.conv, 8) && b[8] == CommandByte(seg.cmd) && b[9] == seg.fragment.frg
            && b[10..12] == ToLE(seg.wnd, 2) && b[12..16] == ToLE(seg.ts, 4) && b[16..20] == ToLE(seg.sn, 4)
            && b[20..24] == ToLE(seg.una, 4) && b[24..28] == ToLE(|seg.fragment.data|, 4)
            && b[28..Overhead(cfg)] == CheckField(cfg, seg)
            && b[Overhead(cfg)..Overhead(cfg) + |seg.fragment.data|] == seg.fragment.data
            && b[Overhead(cfg) + |seg.fragment.data|..] == rest
  {
    hide ToLE;
  }

  /** Decoding what was encoded gives the segment back, whatever follows it. */
  lemma ParseEncoded(cfg: Config, seg: Segment, rest: seq<byte>)
    requires Encodable(seg)
    ensures ParseOne(cfg, Encode(cfg, seg) + rest) == Fine(seg, Overhead(cfg) + |seg.fragment.data|)
  {
    hide ToLE, FromLE, Encode;
    EncodedFields(cfg, seg, rest);
    ReadsBack(cfg.conv, 8);
    ReadsBack(seg.wnd, 2);
    ReadsBack(seg.ts, 4);
    ReadsBack(seg.sn, 4);
    ReadsBack(seg.una, 4);
    ReadsBack(|seg.fragment.data|, 4);
    ReadsBack(cfg.hash(seg.fragment.data), 4);
  }

  /** The header loop decodes exactly the segments that were encoded, in order. */
  lemma {:induction false} DecodeEncodings(cfg: Config, segs: seq<Segment>)
    requires forall i :: 0 <= i < |segs| ==> Encodable(segs[i])
    ensures Decode(cfg, Encodings(cfg, segs)) == Decoded(segs, 0)
  {
    hide Encode, ParseOne;
    if segs != [] {
      var rest := Encodings(cfg, segs[1..]);
      ParseEncoded(cfg, segs[0], rest);
      DecodeEncodings(cfg, segs[1..]);
      assert Encodings(cfg, segs)[Overhead(cfg) + |segs[0].fragment.data|..] == rest;
    }
  }

  lemma {:induction false} EncodingsAppend(cfg: Config, a: seq<Segment>, b: seq<Segment>)
    ensures Encodings(cfg, a + b) == Encodings(cfg, a) + Encodings(cfg, b)
  {
    hide Encode;
    if a == [] {
      assert a + b == b;
    } else {
      assert (a + b)[1..] == a[1..] + b;
      EncodingsAppend(cfg, a[1..], b);
    }
  }

  // ---- Packing --------------------------------------------------------------------------------

  /** The packets output so far and the one being filled; every packet starts with the reserved bytes. */
  datatype Packing = Packing(packets: seq<seq<byte>>, current: seq<byte>)

  /** A packet after its reserved bytes. */
  function Payload(reserved: nat, packet: seq<byte>): seq<byte> {
    if reserved <= |packet| then packet[reserved..] else []
  }

  /** What the peer decodes from a sequence of packets. */
  function Unpacked(cfg: Config, reserved: nat, packets: seq<seq<byte>>): seq<Segment> {
    if packets == [] then [] else Decode(cfg, Payload(reserved, packets[0])).segs
                                  + Unpacked(cfg, reserved, packets[1..])
  }

  /** A packet flush may output: within the mtu, not empty, and decoded without error. */
  predicate WellPacked(cfg: Config, reserve: seq<byte>, mtu: nat, packet: seq<byte>) {
    && |reserve| < |packet| <= mtu && reserve <= packet
    && Decode(cfg, Payload(|reserve|, packet)).code == 0
  }

  /** segs, in order, are in the packets and then in the one being filled. */
  predicate Packs(cfg: Config, reserve: seq<byte>, mtu: nat, p: Packing, pending: seq<Segment>, segs: seq<Segment>) {
    && (forall i :: 0 <= i < |p.packets| ==> WellPacked(cfg, reserve, mtu, p.packets[i]))
    && |p.current| <= mtu && p.current == reserve + Encodings(cfg, pending)
    && (forall i :: 0 <= i < |pending| ==> Encodable(pending[i]))
    && Unpacked(cfg, |reserve|, p.packets) + pending == segs
  }

  function MakeSpace(reserve: seq<byte>, mtu: nat, p: Packing, space: nat): Packing {
    if |p.current| + space > mtu then Packing(p.packets + [p.current], reserve) else p
  }

  lemma {:induction false} UnpackedAppend(cfg: Config, reserved: nat, packets: seq<seq<byte>>, packet: seq<byte>)
    ensures Unpacked(cfg, reserved, packets + [packet]) ==
            Unpacked(cfg, reserved, packets) + Decode(cfg, Payload(reserved, packet)).segs
  {
    hide Decode;
    if packets == [] {
      assert (packets + [packet])[1..] == [];
    } else {
      assert (packets + [packet])[1..] == packets[1..] + [packet];
      UnpackedAppend(cfg, reserved, packets[1..], packet);
    }
  }

  /** Output of a packet that is not empty. */
  lemma OutputPacks(cfg: Config, reserve: seq<byte>, mtu: nat, p: Packing, pending: seq<Segment>, segs: seq<Segment>)
    requires Packs(cfg, reserve, mtu, p, pending, segs) && |p.current| > |reserve| && |reserve| <= mtu
    ensures Packs(cfg, reserve, mtu, Packing(p.packets + [p.current], reserve), [], segs)
  {
    hide Encodings, Unpacked, Decode;
    DecodeEncodings(cfg, pending);
    assert p.current[|reserve|..] == Encodings(cfg, pending);
    UnpackedAppend(cfg, |reserve|, p.packets, p.current);
    EncodingsNone(cfg);
  }

  lemma EncodingsNone(cfg: Config)
    ensures Encodings(cfg, []) == []
  {
  }

  lemma EncodingsSome(cfg: Config, segs: seq<Segment>)
    requires segs != []
    ensures |Encodings(cfg, segs)| > 0
  {
    hide Encode;
  }

  /** Making room never outputs an empty packet, and leaves the room asked for. */
  lemma MakeSpacePacks(cfg: Config, reserve: seq<byte>, mtu: nat, p: Packing, pending: seq<Segment>,
                       segs: seq<Segment>, space: nat)
    returns (pending': seq<Segment>)
    requires Packs(cfg, reserve, mtu, p, pending, segs) && |reserve| + space <= mtu
    ensures Packs(cfg, reserve, mtu, MakeSpace(reserve, mtu, p, space), pending', segs)
    ensures |MakeSpace(reserve, mtu, p, space).current| + space <= mtu
  {
    hide Packs;
    if |p.current| + space > mtu {
      assert |p.current| > |reserve|;
      OutputPacks(cfg, reserve, mtu, p, pending, segs);
      pending' := [];
    } else {
      pending' := pending;
    }
  }

  /** Encoding one more segment into the room made for it. */
  lemma EncodePacks(cfg: Config, reserve: seq<byte>, mtu: nat, p: Packing, pending: seq<Segment>, segs: seq<Segment>,
                    seg: Segment)
    requires Packs(cfg, reserve, mtu, p, pending, segs) && Encodable(seg)
    requires |p.current| + |Encode(cfg, seg)| <= mtu
    ensures Packs(cfg, reserve, mtu, p.(current := p.current + Encode(cfg, seg)), pending + [seg], segs + [seg])
  {
    hide Encode, Unpacked, Decode;
    EncodingsAppend(cfg, pending, [seg]);
    EncodingsOne(cfg, seg);
  }

  lemma EncodingsOne(cfg: Config, seg: Segment)
    ensures Encodings(cfg, [seg]) == Encode(cfg, seg)
  {
    hide Encode;
    assert Encodings(cfg, [seg][1..]) == [];
  }
}
