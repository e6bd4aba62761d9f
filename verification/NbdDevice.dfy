/** The served device and its connection as the objects they are (src/device/nbd.js), step for step what the functions say. */
module NbdDevice {
  import opened Common
  import opened Wire
  import opened Chunker
  import opened NbdProtocol
  import N = Nbd

  class Device {
    const diskSize: nat
    const bytes: array<byte>
    var epoch: seq<Range>
    var discarded: seq<Range>
    var flushes: nat

    predicate Valid() { bytes.Length == diskSize < 0x20_0000_0000_0000 }

    function Abs(): N.Disk
      reads this, bytes
    {
      N.Disk(bytes[..], epoch, discarded, flushes)
    }

    constructor (diskSize: nat, base: Bytes)
      requires diskSize < 0x20_0000_0000_0000
      ensures Valid() && fresh(bytes) && this.diskSize == diskSize
      ensures epoch == [] && discarded == [] && flushes == 0
      ensures forall k :: 0 <= k < diskSize ==> bytes[k] == if k < |base| then base[k] else 0
    {
      this.diskSize := diskSize;
      bytes := new byte[diskSize](k => if 0 <= k < |base| then base[k] else 0);
      epoch, discarded, flushes := [], [], 0;
    }

    method Seal() returns (sealed: seq<Range>)
      modifies `epoch
      ensures sealed == old(epoch) && epoch == []
    {
      sealed := epoch;
      epoch := [];
    }

    method WriteRaw(offset: int, data: Bytes) returns (accepted: bool)
      requires Valid()
      modifies bytes
      ensures accepted <==> 0 <= offset && offset + |data| <= diskSize
      ensures bytes[..] == if accepted then WriteAt(old(bytes[..]), offset, data) else old(bytes[..])
    {
      if offset < 0 || offset + |data| > diskSize { return false; }
      Set(offset, data);
      return true;
    }

    method Set(offset: nat, data: Bytes)
      requires Valid() && offset + |data| <= diskSize
      modifies bytes
      ensures bytes[..] == WriteAt(old(bytes[..]), offset, data)
    {
      forall k | 0 <= k < |data| { bytes[offset + k] := data[k]; }
    }

    method ReadChunk(i: nat, chunkSize: int) returns (r: Option<Bytes>)
      requires Valid() && chunkSize > 0
      ensures r.Some? <==> ChunkStart(i, chunkSize) < diskSize
      ensures r.Some? ==> r.value == Chunk(bytes[..], i, chunkSize)
    {
      var offset := ChunkStart(i, chunkSize);
      if offset >= diskSize { return None; }
      return Some(bytes[offset..offset + ChunkLength(i, chunkSize, diskSize)]);
    }

    /** Answer one request. */
    method Handle(r: Request) returns (answer: N.Answer)
      requires Valid() && (r.kind == WRITE ==> |r.data| == r.length)
      modifies this, bytes
      ensures (Abs(), answer) == N.Handle(old(Abs()), r)
    {
      var error := Validate(r, diskSize);
      if error != NONE { return N.Answer(error, None, false); }
      if r.kind == READ {
        return N.Fine(Some(bytes[r.offset..r.offset + r.length]));
      } else if r.kind == WRITE {
        Set(r.offset, r.data);
        epoch := epoch + [Range(r.offset, r.length)];
        return N.Fine(None);
      } else if r.kind == FLUSH {
        flushes := flushes + 1;
        return N.Fine(None);
      } else if r.kind == TRIM {
        discarded := discarded + [Range(r.offset, r.length)];
        return N.Fine(None);
      } else if r.kind == DISCONNECT {
        return N.Answer(NONE, None, true);
      }
      return N.Answer(INVALID, None, false);
    }
  }

  class Connection {
    const device: Device
    var buffer: Bytes
    var clientFlags: Option<u32>
    var negotiated: bool
    var out: seq<N.Out>

    function Abs(): N.Server
      reads this, device, device.bytes
    {
      N.Server(device.Abs(), buffer, clientFlags, negotiated, out)
    }

    constructor (device: Device)
      requires device.Valid()
      ensures this.device == device && Abs() == N.Start(device.Abs())
    {
      this.device := device;
      buffer, clientFlags, negotiated, out := [], None, false, [N.Sent(GREETING)];
    }

    /** The socket's data event. */
    method OnData(incoming: Bytes)
      requires device.Valid()
      modifies this, device, device.bytes
      ensures N.Sized(old(Abs())) && Abs() == N.Feed(old(Abs()), incoming)
    {
      hide N.Drain;
      buffer := buffer + incoming;
      assert Abs() == old(Abs()).(buffer := old(buffer) + incoming);
      Drain();
    }

    method Drain()
      requires device.Valid()
      modifies this, device, device.bytes
      ensures N.Sized(old(Abs())) && Abs() == N.Drain(old(Abs()))
    {
      IsSized();
      hide *;
      var again := true;
      ghost var s := Abs();
      while again
        invariant device.Valid() && N.Sized(Abs()) && N.Sized(s)
        invariant N.Drain(s) == if again then N.Drain(Abs()) else Abs()
        decreases again, |buffer|
      {
        ghost var before := Abs();
        again := Turn();
        if again { N.DrainGoesOn(before); } else { N.DrainRests(before); }
      }
    }

    lemma IsSized()
      requires device.Valid()
      ensures N.Sized(Abs())
    {
    }

    /** One pass of the loop. */
    method Turn() returns (again: bool)
      requires device.Valid()
      modifies this, device, device.bytes
      ensures N.Sized(old(Abs())) && N.Sized(Abs())
      ensures N.OneTurn(old(Abs())) == if again then N.Again(Abs()) else N.Rest(Abs())
      ensures again ==> |buffer| < old(|buffer|)
    {
      hide N.RequestTurn, N.OptionTurn, N.FlagsTurn;
      if negotiated {
        again := RequestTurn();
      } else if clientFlags.None? {
        again := FlagsTurn();
      } else {
        again := OptionTurn();
      }
    }

    method FlagsTurn() returns (again: bool)
      modifies this
      ensures N.FlagsTurn(old(Abs())) == if again then N.Again(Abs()) else N.Rest(Abs())
    {
      hide U32At;
      if |buffer| < 4 { return false; }
      clientFlags := Some(U32At(buffer, 0));
      buffer := buffer[4..];
      return true;
    }

    method OptionTurn() returns (again: bool)
      requires device.Valid() && clientFlags.Some?
      modifies this
      ensures N.OptionTurn(old(Abs())) == if again then N.Again(Abs()) else N.Rest(Abs())
    {
      hide ParseOption, ExportBytes;
      var option := ParseOption(buffer);
      if !option.Item? { return false; }
      buffer := buffer[option.consumed..];
      if option.value.option != EXPORT_NAME {
        out := out + [N.Ended];
        return false;
      }
      out := out + [N.Sent(ExportBytes(device.diskSize, clientFlags.value / 2 % 2 == 1))];
      negotiated := true;
      return true;
    }

    method RequestTurn() returns (again: bool)
      requires device.Valid()
      modifies this, device, device.bytes
      ensures N.RequestTurn(old(Abs())) == if again then N.Again(Abs()) else N.Rest(Abs())
    {
      hide ParseRequest, ReplyBytes, N.Handle;
      var request := ParseRequest(buffer);
      if !request.Item? { return false; }
      buffer := buffer[request.consumed..];
      var answer := device.Handle(request.value);
      out := out + [N.Sent(ReplyBytes(request.value.handle, answer.error))];
      if answer.data.Some? && answer.error == NONE { out := out + [N.Sent(answer.data.value)]; }
      if answer.disconnect {
        out := out + [N.Ended];
        return false;
      }
      return true;
    }
  }
}
