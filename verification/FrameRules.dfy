/**
 * What the encodings say byte by byte (section 3.1 of RFC 791, section 3.1 of
 * RFC 9293), what the decoders make of headers this encoder does not write, and
 * which segments the checksum lets through (src/net/wire.js).
 */
module FrameRules {
  import opened Common
  import opened Wire
  import opened Frames

  // ------------------------------------------------------------- byte order

  /** Numbers are read most significant byte first. */
  lemma BigEndian(b: Bytes, at: nat)
    ensures at + 2 <= |b| ==> U16At(b, at) == 0x100 * b[at] as int + b[at + 1]
    ensures at + 4 <= |b| ==> U32At(b, at) == 0x100_0000 * b[at] as int + 0x1_0000 * b[at + 1] as int + 0x100 * b[at + 2] as int + b[at + 3]
  {
    if at + 4 <= |b| { FourDigits(b[at..at + 4]); }
  }

  lemma FourDigits(d: Bytes)
    requires |d| == 4
    ensures Number(d) == 0x100_0000 * d[0] as int + 0x1_0000 * d[1] as int + 0x100 * d[2] as int + d[3]
  {
    assert d[..3][..2] == d[..2] && d[..2][..1] == d[..1] && d[..1][..0] == [];
    assert Number(d[..1]) == 256 * Number([]) + d[0];
    assert Number(d[..2]) == 256 * Number(d[..1]) + d[1];
    assert Number(d[..3]) == 256 * Number(d[..2]) + d[2];
  }

  // ------------------------------------------------------------- layouts

  lemma EthLayout(f: EthFrame)
    ensures var b := EthBytes(f);
            && b[..6] == f.dst && b[6..12] == f.src && 0x100 * b[12] as int + b[13] == f.kind
            && |b| == Max(60, 14 + |f.payload|) && b[14..14 + |f.payload|] == f.payload
            && forall k :: 14 + |f.payload| <= k < |b| ==> b[k] == 0
  {
    var b := EthBytes(f);
    assert b[..6] == f.dst && b[6..12] == f.src && b[12..14] == U16Bytes(f.kind);
    assert b[12] == b[12..14][0] && b[13] == b[12..14][1];
  }

  lemma IpLayout(src: Ip, dst: Ip, protocol: byte, payload: Bytes, id: u16, ttl: byte)
    requires 20 + |payload| < 0x1_0000
    ensures var b := IpBytes(src, dst, protocol, payload, id, ttl);
            && |b| == 20 + |payload| && b[0] == 0x45 && b[1] == 0 && 0x100 * b[2] as int + b[3] == |b|
            && 0x100 * b[4] as int + b[5] == id && b[6] == 0x40 && b[7] == 0 && b[8] == ttl && b[9] == protocol
            && b[12..16] == src && b[16..20] == dst && b[20..] == payload
  {
    hide Checksum, PartsSum;
    var start := IpStart(IP_HEADER + |payload|, id, ttl, protocol);
    var b := IpBytes(src, dst, protocol, payload, id, ttl);
    assert b[..10] == start;
    assert b[12..16] == src && b[16..20] == dst && b[20..] == payload;
  }

  lemma TcpLayout(src: Ip, dst: Ip, h: TcpHeader, payload: Bytes, mss: Option<u16>)
    ensures var b, n := TcpBytes(src, dst, h, payload, mss), if mss.None? then 20 else 28;
            && |b| == n + |payload| && b[n..] == payload
            && b[..2] == U16Bytes(h.srcPort) && b[2..4] == U16Bytes(h.dstPort)
            && b[4..8] == U32Bytes(h.seqNo) && b[8..12] == U32Bytes(h.ackNo)
            && b[12] == n / 4 * 16 && b[13] == h.flags && b[14..16] == U16Bytes(h.window) && b[18] == 0 && b[19] == 0
            && (mss.Some? ==> b[20] == 2 && b[21] == 4 && b[22..24] == U16Bytes(mss.value) && b[24..28] == [0, 0, 0, 0])
  {
    hide U16Bytes, U32Bytes, Checksum;
    var b, options := TcpBytes(src, dst, h, payload, mss), Options(mss);
    var start := TcpStart(h, options);
    TcpStartIs(h, options);
    assert b[..16] == start;
    assert start[..2] == U16Bytes(h.srcPort) && start[2..4] == U16Bytes(h.dstPort);
    assert start[4..8] == U32Bytes(h.seqNo) && start[8..12] == U32Bytes(h.ackNo) && start[14..16] == U16Bytes(h.window);
    assert b[18..] == TcpEnd(options, payload)[2..] + [] ==> true;
    TcpEndIs(options, payload);
    assert b[20..20 + |options|] == options;
  }

  // ------------------------------------------------------------- headers from elsewhere

  /** A frame of any length is read, as long as its header is whole. */
  lemma EthAny(b: Bytes)
    ensures DecodeEthernet(b).Some? <==> |b| >= 14
    ensures |b| >= 14 ==>
              var f := DecodeEthernet(b).value;
              f.dst + f.src + [b[12], b[13]] + f.payload == b && f.kind == 0x100 * b[12] as int + b[13]
  {
    BigEndian(b, 12);
  }

  /**
   * A packet with a header of any length: its options are skipped, the padding
   * behind it dropped, and it is known for a fragment by the more-fragments bit
   * or an offset.
   */
  lemma IpAnyHeader(h: Bytes, payload: Bytes, padding: Bytes)
    requires 20 <= |h| <= 60 && h[0] == 0x40 + |h| / 4 && |h| % 4 == 0
    requires 0x100 * h[2] as int + h[3] == |h| + |payload|
    ensures DecodeIp(h + payload + padding) ==
              Some(IpPacket(h[12..16], h[16..20], h[9], (0x100 * h[6] as int + h[7]) % 0x4000 != 0, payload))
  {
    var b := h + payload + padding;
    assert forall k :: 0 <= k < |h| ==> b[k] == h[k];
    assert b[12..16] == h[12..16] && b[16..20] == h[16..20];
    assert b[|h|..|h| + |payload|] == payload;
    FragmentBits(h[6], h[7]);
    assert b[0] / 16 == 4 && b[0] % 16 * 4 == |h|;
  }

  lemma FragmentBits(x: byte, y: byte)
    ensures x / 32 % 2 != 0 || Word(x % 32, y) != 0 <==> (0x100 * x as int + y) % 0x4000 != 0
  {
    var n := 0x100 * (x as int % 64) + y;
    assert 0x100 * x as int + y == 0x4000 * (x / 64) + n;
    assert (0x100 * x as int + y) % 0x4000 == n;
    assert x % 64 == 32 * (x / 32 % 2) + x % 32;
  }

  /** What is too short for its header, or of another version, is no packet; a length that cannot be is not heeded. */
  lemma IpRefused(b: Bytes)
    ensures DecodeIp(b).Some? <==> |b| >= 20 && b[0] / 16 == 4 && 20 <= 4 * (b[0] % 16) <= |b|
    ensures DecodeIp(b).Some? && !(4 * (b[0] % 16) <= 0x100 * b[2] as int + b[3] <= |b|) ==>
              DecodeIp(b).value.payload == b[4 * (b[0] % 16)..]
  {
  }

  /** A segment with a header of any length: its options are skipped. */
  lemma TcpAnyHeader(h: Bytes, payload: Bytes)
    requires 20 <= |h| <= 60 && h[12] / 16 == |h| / 4 && |h| % 4 == 0
    ensures DecodeTcp(h + payload) ==
              Some(TcpSegment(TcpHeader(U16At(h, 0), U16At(h, 2), U32At(h, 4), U32At(h, 8), h[13], U16At(h, 14)), payload))
  {
    var b := h + payload;
    assert forall k :: 0 <= k < |h| ==> b[k] == h[k];
    hide Number;
    assert b[4..8] == h[4..8] && b[8..12] == h[8..12] && b[|h|..] == payload;
  }

  lemma TcpRefused(b: Bytes)
    ensures DecodeTcp(b).Some? <==> |b| >= 20 && 20 <= 4 * (b[12] / 16) <= |b|
  {
    hide Number;
  }

  // ------------------------------------------------------------- which segments are let through

  /** The words of the addresses, the protocol, the length and the segment, as an Internet checksum (RFC 1071). */
  lemma ValidExactly(src: Ip, dst: Ip, segment: Bytes)
    requires |segment| <= 0xffeb
    ensures TcpChecksumValid(src, dst, segment) <==>
              (WordSum(src) + WordSum(dst) + 6 + |segment| + WordSum(segment)) % 0xffff == 0
  {
    PseudoSum(src, dst, |segment|);
    WordSumBound(segment);
    var pseudo := PseudoHeader(src, dst, |segment|);
    WordSumBound(pseudo);
    hide WordSum, PseudoHeader, Fold, PartsSum;
    PartsTwo(pseudo, segment);
    ChecksumIs([pseudo, segment]);
    ChecksExactly(PartsSum([pseudo, segment]));
  }

  lemma PseudoSum(src: Ip, dst: Ip, length: nat)
    requires length < 0x1_0000
    ensures WordSum(PseudoHeader(src, dst, length)) == WordSum(src) + WordSum(dst) + 6 + length
  {
    var tail: Bytes := [0, 6, length / 256 % 256, length % 256];
    assert PseudoHeader(src, dst, length) == src + (dst + tail);
    TailSum(length);
    hide PseudoHeader, WordSum;
    WordSumConcat(src, dst + tail);
    WordSumConcat(dst, tail);
  }

  lemma TailSum(length: nat)
    requires length < 0x1_0000
    ensures WordSum([0, 6, length / 256 % 256, length % 256]) == 6 + length
  {
    var tail: Bytes, low: Bytes := [0, 6, length / 256 % 256, length % 256], [length / 256 % 256, length % 256];
    assert tail[2..] == low && low[2..] == [] && WordSum([]) == 0;
    assert WordSum(low) == Word(low[0], low[1]) == length;
  }

  /**
   * A segment damaged in one word is refused, whichever word it is, unless the
   * damage is from all zeros to all ones or back, which no checksum of this kind
   * can see.
   */
  lemma DamageRefused(src: Ip, dst: Ip, before: Bytes, was: u16, after: Bytes, now: u16)
    requires |before| % 2 == 0 && |before| + 2 + |after| <= 0xffeb
    requires TcpChecksumValid(src, dst, before + U16Bytes(was) + after)
    ensures TcpChecksumValid(src, dst, before + U16Bytes(now) + after) <==> was == now || {was, now} == {0, 0xffff}
  {
    hide *;
    Damaged(before, was, after);
    Damaged(before, now, after);
    ValidExactly(src, dst, before + U16Bytes(was) + after);
    ValidExactly(src, dst, before + U16Bytes(now) + after);
    SameWords(WordSum(src) + WordSum(dst) + 6 + (|before| + 2 + |after|) + WordSum(before) + WordSum(after), was, now);
  }

  lemma Damaged(before: Bytes, word: u16, after: Bytes)
    requires |before| % 2 == 0
    ensures var b := before + U16Bytes(word) + after;
            |b| == |before| + 2 + |after| && WordSum(b) == WordSum(before) + word + WordSum(after)
  {
    FieldSum([], before, after, word);
    PartsTwo([], before + U16Bytes(word) + after);
  }

  lemma SameWords(rest: nat, was: u16, now: u16)
    requires (rest + was) % 0xffff == 0
    ensures (rest + now) % 0xffff == 0 <==> was == now || {was, now} == {0, 0xffff}
  {
    assert {was, now} == {0, 0xffff} <==> (was == 0 && now == 0xffff) || (was == 0xffff && now == 0) by {
      if {was, now} == {0, 0xffff} { assert 0 in {was, now} && 0xffff in {was, now}; }
    }
    RemainderMoves(rest, was, now);
  }
}
