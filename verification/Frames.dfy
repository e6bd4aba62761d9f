/**
 * Ethernet, IPv4 and TCP encodings and the decoders that undo them
 * (src/net/wire.js). Addresses are their bytes, not their printed form.
 */
module Frames {
  import opened Common
  import opened Wire

  type Mac = b: Bytes | |b| == 6 witness [0, 0, 0, 0, 0, 0]
  type Ip = b: Bytes | |b| == 4 witness [0, 0, 0, 0]

  const ETH_HEADER := 14
  const ETH_MINIMUM := 60
  const IP_HEADER := 20
  const TCP_HEADER := 20
  const IPV4: u16 := 0x0800
  const TCP: byte := 6

  function Zeros(n: nat): (b: Bytes)
    ensures |b| == n
  {
    seq(n, _ => 0)
  }

  // ------------------------------------------------------------- ethernet

  datatype EthFrame = EthFrame(dst: Mac, src: Mac, kind: u16, payload: Bytes)

  /** Short frames are padded to the minimum. */
  function EthBytes(f: EthFrame): Bytes {
    var bare := f.dst + f.src + U16Bytes(f.kind) + f.payload;
    bare + Zeros(if |bare| < ETH_MINIMUM then ETH_MINIMUM - |bare| else 0)
  }

  function DecodeEthernet(b: Bytes): Option<EthFrame> {
    if |b| < ETH_HEADER then None else Some(EthFrame(b[..6], b[6..12], U16At(b, 12), b[ETH_HEADER..]))
  }

  method EncodeEthernet(f: EthFrame) returns (frame: array<byte>)
    ensures fresh(frame) && frame[..] == EthBytes(f)
  {
    var length := if ETH_HEADER + |f.payload| < ETH_MINIMUM then ETH_MINIMUM else ETH_HEADER + |f.payload|;
    frame := new byte[length](_ => 0);
    forall i | 0 <= i < 6 { frame[i] := f.dst[i]; }
    forall i | 0 <= i < 6 { frame[6 + i] := f.src[i]; }
    frame[12], frame[13] := f.kind / 256, f.kind % 256;
    forall i | 0 <= i < |f.payload| { frame[ETH_HEADER + i] := f.payload[i]; }
  }

  // ------------------------------------------------------------- ipv4

  datatype IpPacket = IpPacket(src: Ip, dst: Ip, protocol: byte, fragmented: bool, payload: Bytes)

  /** The header before its checksum, and what follows the checksum. */
  function IpStart(length: nat, id: u16, ttl: byte, protocol: byte): (b: Bytes)
    ensures |b| == 10
  {
    [0x45, 0, length / 256 % 256, length % 256] + U16Bytes(id) + [0x40, 0, ttl, protocol]
  }

  function IpHeader(src: Ip, dst: Ip, protocol: byte, length: nat, id: u16, ttl: byte): (b: Bytes)
    ensures |b| == IP_HEADER
  {
    var start := IpStart(length, id, ttl, protocol);
    start + U16Bytes(Checksum([start + [0, 0] + (src + dst)])) + (src + dst)
  }

  function IpBytes(src: Ip, dst: Ip, protocol: byte, payload: Bytes, id: u16, ttl: byte): Bytes {
    IpHeader(src, dst, protocol, IP_HEADER + |payload|, id, ttl) + payload
  }

  /** The header's length decides where the payload ends, not the frame's, which may be padded. */
  function DecodeIp(b: Bytes): Option<IpPacket> {
    if |b| < IP_HEADER || b[0] / 16 != 4 then None
    else
      var headerLength := b[0] % 16 * 4;
      if headerLength < IP_HEADER || |b| < headerLength then None
      else
        var total := U16At(b, 2);
        var end := if headerLength <= total <= |b| then total else |b|;
        Some(IpPacket(
               b[12..16], b[16..20], b[9],
               b[6] / 32 % 2 != 0 || Word(b[6] % 32, b[7]) != 0,
               b[headerLength..end]))
  }

  method FillIpStart(packet: array<byte>, protocol: byte, id: u16, ttl: byte)
    requires packet.Length >= IP_HEADER
    modifies packet
    ensures packet[..] == IpStart(packet.Length, id, ttl, protocol) + old(packet[10..])
  {
    packet[0], packet[1] := 0x45, 0;
    packet[2], packet[3] := packet.Length / 256 % 256, packet.Length % 256;
    packet[4], packet[5] := id / 256, id % 256;
    packet[6], packet[7] := 0x40, 0;
    packet[8], packet[9] := ttl, protocol;
    assert packet[..10] == IpStart(packet.Length, id, ttl, protocol);
    hide IpStart;
    assert packet[..] == packet[..10] + packet[10..];
  }

  /** `bytes` with `data` put over it. */
  function Patched(bytes: Bytes, at: nat, data: Bytes): (r: Bytes)
    requires at + |data| <= |bytes|
    ensures |r| == |bytes|
  {
    bytes[..at] + data + bytes[at + |data|..]
  }

  /** `bytes.set(data, at)`. */
  method Put(b: array<byte>, at: nat, data: Bytes)
    requires at + |data| <= b.Length
    modifies b
    ensures b[..] == Patched(old(b[..]), at, data)
  {
    forall i | 0 <= i < |data| { b[at + i] := data[i]; }
  }

  lemma PatchMiddle(a: Bytes, was: Bytes, data: Bytes, rest: Bytes)
    requires |data| == |was|
    ensures Patched(a + was + rest, |a|, data) == a + data + rest
  {
  }

  method EncodeIp(src: Ip, dst: Ip, protocol: byte, payload: Bytes, id: u16, ttl: byte) returns (packet: array<byte>)
    ensures fresh(packet) && packet[..] == IpBytes(src, dst, protocol, payload, id, ttl)
  {
    hide Checksum, IpStart, Patched, IpBytes, IpHeader, U16Bytes;
    var length := IP_HEADER + |payload|;
    packet := new byte[length](_ => 0);
    ghost var start, zeros := IpStart(length, id, ttl, protocol), packet[10..];
    FillIpStart(packet, protocol, id, ttl);
    AddressesLaid(start, zeros, src, dst, payload);
    Put(packet, 12, src);
    Put(packet, 16, dst);
    var sum := SumParts([packet[..IP_HEADER]]);
    PacketLaid(start, src, dst, zeros[10..], payload, [sum / 256, sum % 256]);
    Put(packet, 10, [sum / 256, sum % 256]);
    Put(packet, IP_HEADER, payload);
    IpBytesAre(src, dst, protocol, payload, id, ttl, sum);
  }

  /** The addresses put behind the room for the checksum. */
  lemma AddressesLaid(start: Bytes, zeros: Bytes, src: Ip, dst: Ip, payload: Bytes)
    requires |start| == 10 && |zeros| == 10 + |payload| && forall k :: 0 <= k < |zeros| ==> zeros[k] == 0
    ensures var laid := Patched(Patched(start + zeros, 12, src), 16, dst);
            laid == start + [0, 0] + (src + dst) + zeros[10..] && laid[..IP_HEADER] == start + [0, 0] + (src + dst)
  {
    PatchMiddle(start + [0, 0], zeros[2..6], src, zeros[6..]);
    assert start + zeros == start + [0, 0] + zeros[2..6] + zeros[6..];
    PatchMiddle(start + [0, 0] + src, zeros[6..10], dst, zeros[10..]);
    assert start + [0, 0] + src + zeros[6..] == start + [0, 0] + src + zeros[6..10] + zeros[10..];
    hide Patched;
    assert start + [0, 0] + src + dst + zeros[10..] == start + [0, 0] + (src + dst) + zeros[10..];
  }

  /** The checksum and the payload put in their places. */
  lemma PacketLaid(start: Bytes, src: Ip, dst: Ip, room: Bytes, payload: Bytes, field: Bytes)
    requires |start| == 10 && |room| == |payload| && |field| == 2
    ensures Patched(Patched(start + [0, 0] + (src + dst) + room, 10, field), IP_HEADER, payload) == start + field + (src + dst) + payload
  {
    PatchMiddle(start, [0, 0], field, src + dst + room);
    assert start + [0, 0] + (src + dst) + room == start + [0, 0] + (src + dst + room);
    PatchMiddle(start + field + (src + dst), room, payload, []);
    hide Patched;
    assert start + field + (src + dst + room) == start + field + (src + dst) + room + [];
    assert start + field + (src + dst) + payload + [] == start + field + (src + dst) + payload;
  }

  lemma IpBytesAre(src: Ip, dst: Ip, protocol: byte, payload: Bytes, id: u16, ttl: byte, sum: u16)
    requires var start := IpStart(IP_HEADER + |payload|, id, ttl, protocol); sum == Checksum([start + [0, 0] + (src + dst)])
    ensures IpBytes(src, dst, protocol, payload, id, ttl) ==
              IpStart(IP_HEADER + |payload|, id, ttl, protocol) + [sum / 256, sum % 256] + (src + dst) + payload
  {
    hide Checksum, IpStart;
  }

  // ------------------------------------------------------------- tcp

  datatype TcpHeader = TcpHeader(srcPort: u16, dstPort: u16, seqNo: u32, ackNo: u32, flags: byte, window: u16)

  datatype TcpSegment = TcpSegment(header: TcpHeader, payload: Bytes)

  /** The addresses the TCP checksum covers as well. */
  function PseudoHeader(src: Ip, dst: Ip, length: nat): (b: Bytes)
    ensures |b| == 12
  {
    src + dst + [0, TCP, length / 256 % 256, length % 256]
  }

  /** The maximum segment size, padded to a word. */
  function Options(mss: Option<u16>): (b: Bytes)
    ensures |b| == if mss.None? then 0 else 8
  {
    if mss.None? then [] else [2, 4] + U16Bytes(mss.value) + [0, 0, 0, 0]
  }

  function TcpStart(h: TcpHeader, options: Bytes): (b: Bytes)
    requires |options| == 0 || |options| == 8
    ensures |b| == 16
  {
    Numbers(h)
    + [(TCP_HEADER + |options|) / 4 * 16, h.flags] + U16Bytes(h.window)
  }

  function TcpEnd(options: Bytes, payload: Bytes): (b: Bytes)
    ensures |b| == 2 + |options| + |payload|
  {
    [0, 0] + options + payload
  }

  function TcpBytes(src: Ip, dst: Ip, h: TcpHeader, payload: Bytes, mss: Option<u16>): (b: Bytes)
    ensures |b| == TCP_HEADER + |Options(mss)| + |payload|
  {
    var start, end := TcpStart(h, Options(mss)), TcpEnd(Options(mss), payload);
    var pseudo := PseudoHeader(src, dst, TCP_HEADER + |Options(mss)| + |payload|);
    start + U16Bytes(Checksum([pseudo, start + [0, 0] + end])) + end
  }

  function DecodeTcp(b: Bytes): Option<TcpSegment> {
    if |b| < TCP_HEADER then None
    else
      var dataOffset := b[12] / 16 * 4;
      if dataOffset < TCP_HEADER || |b| < dataOffset then None
      else Some(TcpSegment(
                  TcpHeader(U16At(b, 0), U16At(b, 2), U32At(b, 4), U32At(b, 8), b[13], U16At(b, 14)),
                  b[dataOffset..]))
  }

  predicate TcpChecksumValid(src: Ip, dst: Ip, segment: Bytes) {
    Checksum([PseudoHeader(src, dst, |segment|), segment]) == 0
  }

  function Numbers(h: TcpHeader): (b: Bytes)
    ensures |b| == 12
  {
    U16Bytes(h.srcPort) + U16Bytes(h.dstPort) + U32Bytes(h.seqNo) + U32Bytes(h.ackNo)
  }

  method FillTcpNumbers(segment: array<byte>, h: TcpHeader)
    requires segment.Length >= TCP_HEADER
    modifies segment
    ensures segment[..12] == Numbers(h) && segment[12..] == old(segment[12..])
  {
    segment[0], segment[1] := h.srcPort / 256, h.srcPort % 256;
    segment[2], segment[3] := h.dstPort / 256, h.dstPort % 256;
    hide U32Bytes;
    assert segment[..4] == U16Bytes(h.srcPort) + U16Bytes(h.dstPort);
    WriteU32(segment, 4, h.seqNo);
    assert segment[..8] == U16Bytes(h.srcPort) + U16Bytes(h.dstPort) + U32Bytes(h.seqNo);
    WriteU32(segment, 8, h.ackNo);
    hide U16Bytes;
    assert segment[..12] == Numbers(h);
  }

  method FillTcpStart(segment: array<byte>, h: TcpHeader, options: Bytes)
    requires segment.Length >= TCP_HEADER && (|options| == 0 || |options| == 8)
    modifies segment
    ensures segment[..] == TcpStart(h, options) + old(segment[16..])
  {
    hide Numbers;
    FillTcpNumbers(segment, h);
    ghost var numbers := segment[..12];
    segment[12], segment[13] := (TCP_HEADER + |options|) / 4 * 16, h.flags;
    segment[14], segment[15] := h.window / 256, h.window % 256;
    assert segment[..12] == numbers;
    assert segment[12..16] == [(TCP_HEADER + |options|) / 4 * 16, h.flags] + U16Bytes(h.window);
    assert segment[..] == segment[..12] + segment[12..16] + segment[16..];
  }

  method EncodeTcp(src: Ip, dst: Ip, h: TcpHeader, payload: Bytes, mss: Option<u16>) returns (segment: array<byte>)
    ensures fresh(segment) && segment[..] == TcpBytes(src, dst, h, payload, mss)
  {
    hide Checksum, TcpStart, Patched, TcpBytes, TcpEnd, PseudoHeader, Options, U16Bytes;
    var options := Options(mss);
    var header := TCP_HEADER + |options|;
    segment := new byte[header + |payload|](_ => 0);
    ghost var start, zeros := TcpStart(h, options), segment[16..];
    FillTcpStart(segment, h, options);
    TextLaid(start, zeros, options, payload);
    Put(segment, TCP_HEADER, options);
    Put(segment, header, payload);
    ghost var end := TcpEnd(options, payload);
    TcpEndIs(options, payload);
    var sum := SumParts([PseudoHeader(src, dst, segment.Length), segment[..]]);
    PatchMiddle(start, [0, 0], [sum / 256, sum % 256], end);
    Put(segment, 16, [sum / 256, sum % 256]);
    TcpBytesAre(src, dst, h, payload, mss, sum);
  }

  /** Options and payload put behind the room for checksum and urgent pointer. */
  lemma TextLaid(start: Bytes, zeros: Bytes, options: Bytes, payload: Bytes)
    requires |start| == 16 && |zeros| == 4 + |options| + |payload| && forall k :: 0 <= k < |zeros| ==> zeros[k] == 0
    ensures Patched(Patched(start + zeros, TCP_HEADER, options), TCP_HEADER + |options|, payload) ==
              start + [0, 0] + ([0, 0] + options + payload)
  {
    var n := 4 + |options|;
    PatchMiddle(start + [0, 0, 0, 0], zeros[4..n], options, zeros[n..]);
    assert start + zeros == start + [0, 0, 0, 0] + zeros[4..n] + zeros[n..];
    PatchMiddle(start + [0, 0, 0, 0] + options, zeros[n..], payload, []);
    hide Patched;
    assert start + [0, 0, 0, 0] + options + zeros[n..] == start + [0, 0, 0, 0] + options + zeros[n..] + [];
    assert start + [0, 0, 0, 0] + options + payload + [] == start + [0, 0] + ([0, 0] + options + payload);
  }

  lemma TcpEndIs(options: Bytes, payload: Bytes)
    ensures TcpEnd(options, payload) == [0, 0] + options + payload
  {
  }

  lemma TcpBytesAre(src: Ip, dst: Ip, h: TcpHeader, payload: Bytes, mss: Option<u16>, sum: u16)
    requires var options := Options(mss);
             sum == Checksum([PseudoHeader(src, dst, TCP_HEADER + |options| + |payload|), TcpStart(h, options) + [0, 0] + TcpEnd(options, payload)])
    ensures TcpBytes(src, dst, h, payload, mss) == TcpStart(h, Options(mss)) + [sum / 256, sum % 256] + TcpEnd(Options(mss), payload)
  {
    hide Checksum, TcpStart, TcpEnd, PseudoHeader, Options;
  }

  method WriteU32(b: array<byte>, at: nat, value: u32)
    requires at + 4 <= b.Length
    modifies b
    ensures b[..] == old(b[..at]) + U32Bytes(value) + old(b[at + 4..])
  {
    U32Shifted(value);
    hide U32Bytes;
    b[at] := value / 0x100_0000;
    b[at + 1] := value / 0x1_0000 % 256;
    b[at + 2] := value / 256 % 256;
    b[at + 3] := value % 256;
  }

  // ------------------------------------------------------------- what is read back

  /** A decoded frame is what was sent, with padding after a short payload. */
  lemma EthReadsBack(f: EthFrame)
    ensures var pad := Zeros(if 14 + |f.payload| < ETH_MINIMUM then ETH_MINIMUM - 14 - |f.payload| else 0);
            DecodeEthernet(EthBytes(f)) == Some(f.(payload := f.payload + pad))
  {
    var b := EthBytes(f);
    var pad := Zeros(if 14 + |f.payload| < ETH_MINIMUM then ETH_MINIMUM - 14 - |f.payload| else 0);
    assert b == f.dst + f.src + U16Bytes(f.kind) + f.payload + pad;
    assert b[12..14] == U16Bytes(f.kind);
    U16Reads(b, 12, f.kind);
    assert b[..6] == f.dst && b[6..12] == f.src && b[14..] == f.payload + pad;
  }

  /** The bytes of an IP header, one by one. */
  lemma IpHeaderBytes(src: Ip, dst: Ip, protocol: byte, length: nat, id: u16, ttl: byte)
    requires length < 0x1_0000
    ensures var h := IpHeader(src, dst, protocol, length, id, ttl);
            && h[0] == 0x45 && U16At(h, 2) == length && h[6] == 0x40 && h[7] == 0 && h[9] == protocol
            && h[12..16] == src && h[16..20] == dst
  {
    hide Checksum;
    var start := IpStart(length, id, ttl, protocol);
    var h := IpHeader(src, dst, protocol, length, id, ttl);
    assert h[..10] == start;
    assert length / 256 % 256 == length / 256;
    assert h[12..16] == src && h[16..20] == dst;
  }

  /** An IP packet is read back exactly, whatever padding the frame put behind it. */
  lemma IpReadsBack(src: Ip, dst: Ip, protocol: byte, payload: Bytes, id: u16, ttl: byte, padding: Bytes)
    requires IP_HEADER + |payload| < 0x1_0000
    ensures DecodeIp(IpBytes(src, dst, protocol, payload, id, ttl) + padding) == Some(IpPacket(src, dst, protocol, false, payload))
  {
    var length := IP_HEADER + |payload|;
    var h := IpHeader(src, dst, protocol, length, id, ttl);
    IpHeaderBytes(src, dst, protocol, length, id, ttl);
    hide IpHeader;
    var b := IpBytes(src, dst, protocol, payload, id, ttl) + padding;
    assert b == h + (payload + padding);
    IpDecodes(b, h, payload, padding);
  }

  lemma IpDecodes(b: Bytes, h: Bytes, payload: Bytes, padding: Bytes)
    requires |h| == IP_HEADER && b == h + (payload + padding) && h[0] == 0x45 && h[6] == 0x40 && h[7] == 0
    requires U16At(h, 2) == IP_HEADER + |payload|
    ensures DecodeIp(b) == Some(IpPacket(h[12..16], h[16..20], h[9], false, payload))
  {
    HeaderSeen(b, h, payload + padding);
    hide U16At;
    assert b[IP_HEADER..IP_HEADER + |payload|] == payload;
    assert Word(b[6] % 32, b[7]) == 0;
  }

  lemma HeaderSeen(b: Bytes, h: Bytes, rest: Bytes)
    requires |h| == IP_HEADER && b == h + rest
    ensures b[0] == h[0] && b[6] == h[6] && b[7] == h[7] && b[9] == h[9] && U16At(b, 2) == U16At(h, 2)
    ensures b[12..16] == h[12..16] && b[16..20] == h[16..20]
  {
  }

  /** The header's own checksum checks out. */
  lemma IpHeaderChecks(src: Ip, dst: Ip, protocol: byte, length: nat, id: u16, ttl: byte)
    ensures Checksum([IpHeader(src, dst, protocol, length, id, ttl)]) == 0
  {
    var start := IpStart(length, id, ttl, protocol);
    SealedChecks([], start, src + dst);
    PartsOne(start + [0, 0] + (src + dst));
    PartsOne(IpHeader(src, dst, protocol, length, id, ttl));
    hide IpStart, PartsSum, Fold;
  }

  lemma TcpStartBytes(h: TcpHeader, options: Bytes)
    requires |options| == 0 || |options| == 8
    ensures var b := TcpStart(h, options);
            && U16At(b, 0) == h.srcPort && U16At(b, 2) == h.dstPort && U32At(b, 4) == h.seqNo && U32At(b, 8) == h.ackNo
            && b[12] / 16 * 4 == TCP_HEADER + |options| && b[13] == h.flags && U16At(b, 14) == h.window
  {
    hide U16Bytes, U32Bytes, U16At, U32At, TcpStart;
    var b := TcpStart(h, options);
    TcpStartIs(h, options);
    U16Reads(b, 0, h.srcPort);
    U16Reads(b, 2, h.dstPort);
    U32Reads(b, 4, h.seqNo);
    U32Reads(b, 8, h.ackNo);
    U16Reads(b, 14, h.window);
  }

  lemma TcpStartIs(h: TcpHeader, options: Bytes)
    requires |options| == 0 || |options| == 8
    ensures TcpStart(h, options) ==
              U16Bytes(h.srcPort) + U16Bytes(h.dstPort) + U32Bytes(h.seqNo) + U32Bytes(h.ackNo)
              + [(TCP_HEADER + |options|) / 4 * 16, h.flags] + U16Bytes(h.window)
    ensures (TCP_HEADER + |options|) / 4 * 16 / 16 * 4 == TCP_HEADER + |options|
  {
    hide U16Bytes, U32Bytes;
  }

  /** A segment is read back exactly, with or without the size option. */
  lemma TcpReadsBack(src: Ip, dst: Ip, h: TcpHeader, payload: Bytes, mss: Option<u16>)
    ensures DecodeTcp(TcpBytes(src, dst, h, payload, mss)) == Some(TcpSegment(h, payload))
  {
    var options := Options(mss);
    var b, start := TcpBytes(src, dst, h, payload, mss), TcpStart(h, options);
    TcpStartBytes(h, options);
    hide TcpStart, Checksum, Options;
    assert b[..16] == start;
    assert b[TCP_HEADER + |options|..] == payload;
    hide TcpBytes;
    assert b == start + b[16..];
    StartSeen(b, start, b[16..]);
    hide U16At, U32At;
  }

  lemma StartSeen(b: Bytes, start: Bytes, rest: Bytes)
    requires |start| == 16 && b == start + rest
    ensures U16At(b, 0) == U16At(start, 0) && U16At(b, 2) == U16At(start, 2) && U16At(b, 14) == U16At(start, 14)
    ensures U32At(b, 4) == U32At(start, 4) && U32At(b, 8) == U32At(start, 8) && b[12] == start[12] && b[13] == start[13]
  {
    hide Number;
    assert b[4..8] == start[4..8] && b[8..12] == start[8..12];
  }

  /** And its checksum, over the addresses it borrows as well, is valid. */
  lemma TcpChecks(src: Ip, dst: Ip, h: TcpHeader, payload: Bytes, mss: Option<u16>)
    requires |TcpBytes(src, dst, h, payload, mss)| <= 0xffeb
    ensures TcpChecksumValid(src, dst, TcpBytes(src, dst, h, payload, mss))
  {
    hide Checksum;
    var start, end := TcpStart(h, Options(mss)), TcpEnd(Options(mss), payload);
    SealedChecks(PseudoHeader(src, dst, |TcpBytes(src, dst, h, payload, mss)|), start, end);
    hide TcpStart, TcpEnd, PseudoHeader, Options;
  }

  /**
   * The whole frame: Ethernet, then IP, then TCP of what was encoded give back
   * the addresses, the header and the payload, in spite of the padding, and both
   * checksums are right.
   */
  lemma FrameReadsBack(
      dstMac: Mac, srcMac: Mac, src: Ip, dst: Ip, h: TcpHeader, payload: Bytes, mss: Option<u16>, id: u16, ttl: byte)
    requires IP_HEADER + |TcpBytes(src, dst, h, payload, mss)| < 0x1_0000
    ensures var segment := TcpBytes(src, dst, h, payload, mss);
            var frame := DecodeEthernet(EthBytes(EthFrame(dstMac, srcMac, IPV4, IpBytes(src, dst, TCP, segment, id, ttl))));
            && frame.Some? && frame.value.dst == dstMac && frame.value.src == srcMac && frame.value.kind == IPV4
            && DecodeIp(frame.value.payload) == Some(IpPacket(src, dst, TCP, false, segment))
            && DecodeTcp(segment) == Some(TcpSegment(h, payload))
            && TcpChecksumValid(src, dst, segment)
            && Checksum([frame.value.payload[..IP_HEADER]]) == 0
  {
    hide Checksum, TcpBytes, IpHeader, EthBytes, DecodeEthernet, DecodeIp, DecodeTcp, TcpChecksumValid, Zeros;
    var segment := TcpBytes(src, dst, h, payload, mss);
    var packet := IpBytes(src, dst, TCP, segment, id, ttl);
    var f := EthFrame(dstMac, srcMac, IPV4, packet);
    EthReadsBack(f);
    var pad := Zeros(if 14 + |packet| < ETH_MINIMUM then ETH_MINIMUM - 14 - |packet| else 0);
    IpReadsBack(src, dst, TCP, segment, id, ttl, pad);
    TcpReadsBack(src, dst, h, payload, mss);
    TcpChecks(src, dst, h, payload, mss);
    IpHeaderChecks(src, dst, TCP, IP_HEADER + |segment|, id, ttl);
    assert (packet + pad)[..IP_HEADER] == IpHeader(src, dst, TCP, IP_HEADER + |segment|, id, ttl);
  }
}
