/** The block-device wire protocol, bytes to requests and back (src/device/nbd-protocol.js). */
module NbdProtocol {
  import opened Common
  import opened Wire

  const HELLO: nat := 0x4e42444d41474943
  const OPTION: nat := 0x49484156454f5054
  const REQUEST: u32 := 0x25609513
  const REPLY: u32 := 0x67446698

  const READ: u16 := 0
  const WRITE: u16 := 1
  const DISCONNECT: u16 := 2
  const FLUSH: u16 := 3
  const TRIM: u16 := 4

  const EXPORT_NAME: u32 := 1

  const NONE: u32 := 0
  const INVALID: u32 := 22
  const NOSPACE: u32 := 28

  const OPTION_BYTES := 16
  const REQUEST_BYTES := 28
  const PADDING := 124
  const TRANSMISSION_FLAGS: u16 := 0x25

  type u64 = x: int | 0 <= x < 0x1_0000_0000_0000_0000

  function U64Bytes(x: u64): (b: Bytes)
    ensures |b| == 8
  {
    Digits(8, x)
  }

  function U64At(b: Bytes, at: nat): u64
    requires at + 8 <= |b|
  {
    NumberFits(b[at..at + 8]);
    Limits();
    Number(b[at..at + 8])
  }

  /** A whole item at the front of the buffer, none yet, or something that is no item. */
  datatype Parsed<T> = Incomplete | Malformed | Item(value: T, consumed: nat)

  datatype Opt = Opt(option: u32, data: Bytes)

  datatype Request = Request(flags: u16, kind: u16, handle: Bytes, offset: u64, length: u32, data: Bytes)

  function ParseOption(b: Bytes): (r: Parsed<Opt>)
    ensures r.Item? ==> OPTION_BYTES <= r.consumed <= |b|
  {
    if |b| < OPTION_BYTES then Incomplete
    else if U64At(b, 0) != OPTION then Malformed
    else
      var length := U32At(b, 12);
      if |b| < OPTION_BYTES + length then Incomplete
      else Item(Opt(U32At(b, 8), b[OPTION_BYTES..OPTION_BYTES + length]), OPTION_BYTES + length)
  }

  /** A write waits for its payload as well. */
  function ParseRequest(b: Bytes): (r: Parsed<Request>)
    ensures r.Item? ==> REQUEST_BYTES <= r.consumed <= |b|
    ensures r.Item? ==> r.consumed == REQUEST_BYTES + |r.value.data|
    ensures r.Item? ==> |r.value.data| == if r.value.kind == WRITE then r.value.length else 0
  {
    if |b| < REQUEST_BYTES then Incomplete
    else if U32At(b, 0) != REQUEST then Malformed
    else
      var kind, length := U16At(b, 6), U32At(b, 24);
      var payload := if kind == WRITE then length else 0;
      if |b| < REQUEST_BYTES + payload then Incomplete
      else Item(
             Request(U16At(b, 4), kind, b[8..16], U64At(b, 16), length, b[REQUEST_BYTES..REQUEST_BYTES + payload]),
             REQUEST_BYTES + payload)
  }

  function OptionBytes(option: u32, data: Bytes): Bytes
    requires |data| < 0x1_0000_0000
  {
    U64Bytes(OPTION) + U32Bytes(option) + U32Bytes(|data|) + data
  }

  function RequestBytes(kind: u16, handle: Bytes, offset: u64, length: u32, data: Bytes): Bytes {
    U32Bytes(REQUEST) + U16Bytes(0) + U16Bytes(kind) + handle + U64Bytes(offset) + U32Bytes(length) + data
  }

  function ReplyBytes(handle: Bytes, error: u32): Bytes { U32Bytes(REPLY) + U32Bytes(error) + handle }

  function ExportBytes(diskSize: u64, noZeroes: bool): Bytes {
    U64Bytes(diskSize) + U16Bytes(TRANSMISSION_FLAGS) + seq(if noZeroes then 0 else PADDING, _ => 0)
  }

  const GREETING: Bytes := U64Bytes(HELLO) + U64Bytes(OPTION) + U16Bytes(3)

  function Validate(r: Request, diskSize: nat): u32 {
    if r.kind == FLUSH || r.kind == DISCONNECT then NONE
    else if r.offset + r.length > diskSize then NOSPACE
    else NONE
  }

  // ------------------------------------------------------------- builders are undone

  lemma U64Reads(b: Bytes, at: nat, x: u64)
    requires at + 8 <= |b| && b[at..at + 8] == U64Bytes(x)
    ensures U64At(b, at) == x
  {
    Limits();
    DigitsRead(8, x);
  }

  /** An option is read back, whatever follows it. */
  lemma OptionReadsBack(option: u32, data: Bytes, suffix: Bytes)
    requires |data| < 0x1_0000_0000
    ensures ParseOption(OptionBytes(option, data) + suffix) == Item(Opt(option, data), OPTION_BYTES + |data|)
  {
    hide U32Bytes, U64Bytes, U32At, U64At;
    var b := OptionBytes(option, data) + suffix;
    assert b == U64Bytes(OPTION) + U32Bytes(option) + U32Bytes(|data|) + data + suffix;
    assert b[0..8] == U64Bytes(OPTION) && b[8..12] == U32Bytes(option) && b[12..16] == U32Bytes(|data|);
    assert b[16..16 + |data|] == data;
    U64Reads(b, 0, OPTION);
    U32Reads(b, 8, option);
    U32Reads(b, 12, |data|);
  }

  /** A request is read back, whatever follows it; a write must say its payload's length. */
  lemma RequestReadsBack(kind: u16, handle: Bytes, offset: u64, length: u32, data: Bytes, suffix: Bytes)
    requires |handle| == 8 && |data| == if kind == WRITE then length else 0
    ensures ParseRequest(RequestBytes(kind, handle, offset, length, data) + suffix) ==
              Item(Request(0, kind, handle, offset, length, data), REQUEST_BYTES + |data|)
  {
    hide U16Bytes, U32Bytes, U64Bytes, U16At, U32At, U64At;
    var b := RequestBytes(kind, handle, offset, length, data) + suffix;
    assert b == U32Bytes(REQUEST) + U16Bytes(0) + U16Bytes(kind) + handle + U64Bytes(offset) + U32Bytes(length) + data + suffix;
    RequestParts(b, kind, handle, offset, length, data, suffix);
    U32Reads(b, 0, REQUEST);
    U16Reads(b, 4, 0);
    U16Reads(b, 6, kind);
    U64Reads(b, 16, offset);
    U32Reads(b, 24, length);
  }

  lemma RequestParts(b: Bytes, kind: u16, handle: Bytes, offset: u64, length: u32, data: Bytes, suffix: Bytes)
    requires |handle| == 8
    requires b == U32Bytes(REQUEST) + U16Bytes(0) + U16Bytes(kind) + handle + U64Bytes(offset) + U32Bytes(length) + data + suffix
    ensures |b| == 28 + |data| + |suffix|
    ensures b[0..4] == U32Bytes(REQUEST) && b[4..6] == U16Bytes(0) && b[6..8] == U16Bytes(kind) && b[8..16] == handle
    ensures b[16..24] == U64Bytes(offset) && b[24..28] == U32Bytes(length) && b[28..28 + |data|] == data
  {
    hide U16Bytes, U32Bytes, U64Bytes;
  }

  // ------------------------------------------------------------- only the item matters

  /** What is behind a whole item, or an error, does not matter. */
  lemma OptionStable(b: Bytes, more: Bytes)
    requires !ParseOption(b).Incomplete?
    ensures ParseOption(b + more) == ParseOption(b)
  {
    hide U32At, U64At;
    AtStable(b, more, 0);
    AtStable(b, more, 8);
    AtStable(b, more, 12);
    var length := U32At(b, 12);
    if |b| >= OPTION_BYTES + length { assert (b + more)[OPTION_BYTES..OPTION_BYTES + length] == b[OPTION_BYTES..OPTION_BYTES + length]; }
  }

  lemma AtStable(b: Bytes, more: Bytes, at: nat)
    ensures at + 2 <= |b| ==> U16At(b + more, at) == U16At(b, at)
    ensures at + 4 <= |b| ==> U32At(b + more, at) == U32At(b, at)
    ensures at + 8 <= |b| ==> U64At(b + more, at) == U64At(b, at)
  {
    hide Number;
    if at + 4 <= |b| { assert (b + more)[at..at + 4] == b[at..at + 4]; }
    if at + 8 <= |b| { assert (b + more)[at..at + 8] == b[at..at + 8]; }
  }

  lemma RequestStable(b: Bytes, more: Bytes)
    requires !ParseRequest(b).Incomplete?
    ensures ParseRequest(b + more) == ParseRequest(b)
  {
    hide U16At, U32At, U64At;
    AtStable(b, more, 0);
    AtStable(b, more, 4);
    AtStable(b, more, 6);
    AtStable(b, more, 16);
    AtStable(b, more, 24);
    assert (b + more)[8..16] == b[8..16];
    var payload := if U16At(b, 6) == WRITE then U32At(b, 24) else 0;
    if |b| >= REQUEST_BYTES + payload {
      assert (b + more)[REQUEST_BYTES..REQUEST_BYTES + payload] == b[REQUEST_BYTES..REQUEST_BYTES + payload];
    }
  }

  /** An item can be read as soon as its last byte is there. */
  lemma OptionPrefix(b: Bytes)
    requires ParseOption(b).Item?
    ensures ParseOption(b[..ParseOption(b).consumed]) == ParseOption(b)
  {
    var n := ParseOption(b).consumed;
    var c, more := b[..n], b[n..];
    assert c + more == b;
    hide U32At, U64At;
    AtStable(c, more, 0);
    AtStable(c, more, 8);
    AtStable(c, more, 12);
    assert c[OPTION_BYTES..n] == b[OPTION_BYTES..n];
  }

  lemma RequestPrefix(b: Bytes)
    requires ParseRequest(b).Item?
    ensures ParseRequest(b[..ParseRequest(b).consumed]) == ParseRequest(b)
  {
    var n := ParseRequest(b).consumed;
    var c, more := b[..n], b[n..];
    assert c + more == b;
    hide U16At, U32At, U64At;
    AtStable(c, more, 0);
    AtStable(c, more, 4);
    AtStable(c, more, 6);
    AtStable(c, more, 16);
    AtStable(c, more, 24);
    assert c[8..16] == b[8..16] && c[REQUEST_BYTES..n] == b[REQUEST_BYTES..n];
  }
}
