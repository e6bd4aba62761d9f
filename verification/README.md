# A verified model of the machine, its network and its repository

The program keeps a virtual machine's disk in a git-like repository and gives
the machine a network inside a browser tab. This project models its hard parts
in Dafny 4.11 and proves what they are for. `dafny verify dfyconfig.toml` checks
all of it.

- **The in-tab TCP stack** (`SeqNum`, `Tcp`, `TcpSender`, `TcpReceiver`,
  `TcpLink`, `TcpAcked`, `TcpWrap`, `TcpReassembly`, `TcpTimer`, `TcpRules`,
  `TcpConnection`). `Tcp` is one connection as a step function over values;
  `TcpConnection` is the same record updated in place, each method proved equal to
  its step. The theorems are about every run: the sender against any peer, the
  receiver behind a network that drops, repeats and reorders, both ends together
  (what is delivered was written, what is acknowledged was delivered), the timers,
  and what each step owes to the peer's window and to the clock.
- **Frames** (`Wire`, `Frames`, `FrameRules`): the ones' complement checksum, what
  it lets through, and the Ethernet, IPv4 and TCP encodings, filled in place and
  read back.
- **HTTP** (`HttpText`, `Http`, `HttpSend`, `HttpChunked`, `HttpAnswer`,
  `HttpRequest`, `HttpAsked`, `HttpParser`): the incremental response and request parsers as
  machines and as objects. What they produce does not depend on how the stream was
  cut; what was serialised is read back, and so is any answer a server may write,
  however the end of its body is told, and any request a client may.
- **The sync engine** (`Chunker`, `Capture`, `Device`, `Repo`, `Epoch`,
  `SyncState`, `Restore`, `Compaction`, `Reachability`, `Machine`, `Lifetime`):
  a disk committed as content-addressed chunks on a compare-and-swap branch and put
  back from it. `Machine.Machine` is the engine's object over `MemoryHost` and
  `MemoryDevice`; its ghost state is the disk the manifest stands for, and the
  chunks the device may have wrong although nothing is pending.
- **The lease** (`Lease`): any number of interleaved calls on one branch.
- **The served block device** (`NbdProtocol`, `Nbd`, `NbdCuts`, `NbdClient`,
  `NbdDevice`): the server's machine, and a whole session from the client's end.
- **Costs and rates** (`Sweep`, `Governor`): the chunk-size trade-off and the
  token bucket.

Hashes, the cipher, the manifest's serialisation, UTF-8 and the runtime's number
parsing are parameters; `Codec.Sound` and `Js.Sound` say what is known of them
(no two byte strings share a hash, deciphering undoes enciphering, parsing undoes
serialising, decoding undoes encoding). Clocks are arguments. The guest's writes
between the reads of a sync are arguments too, so a theorem about `Sync` holds
for every interleaving of them. All numbers that wrap are wrapped explicitly.

Where a property one would expect is false of the code, the exact condition is
proved instead:

- A FIN on a segment with data is never accepted, because the comparison is made
  after the data have moved `rcvNxt` (`TcpReceiver.FinAcceptedExactlyWhenBare`).
- A segment is taken for new data again once the stream has gone round all the
  sequence numbers. A stream is safe from every network exactly when, its end
  included, it does not go round; for every longer one there is a run that
  delivers an old byte again (`TcpWrap.SafeExactly`).
- A response head without body or framing leaves the parser looking for heads:
  the result is independent of the cuts exactly when every later complete head
  reads as the same response (`Http.IndependentExactly`), which two different
  answers in a row do not (`HttpSend.TwoAnswers`).
- A block-device connection goes on serving whatever is behind its end as soon
  as more bytes arrive. The bytes the client is sent and the disk do not depend on
  the cuts exactly when the stream has no whole request behind a disconnect and no
  export behind a refused option (`NbdCuts.IndependentExactly`); a write behind a
  disconnect is done or not as the stream is cut (`NbdCuts.WriteBehindEnd`).
- Before a rebase nothing compares chunk sizes: over another writer's manifest
  with a different one the epoch is committed and cannot be restored
  (`Lifetime.RebasedAcrossSizes`).
- `compact` keeps the old digests: its commit restores to the device exactly
  when no chunk with a digest has changed since it was committed, and is refused
  otherwise (`Compaction.CompactedRestores`, and one such machine in
  `Lifetime.ChangedThenCompacted`); the pin recorded before it is
  refused always (`Compaction.OldPinRefused`).
- A sync that fails after sealing loses the sealed ranges to the next one
  (`SyncState.Outcome`, the growth of `adrift`), and a rebase leaves the device
  without the other writer's chunks. A machine that made its own branch refuses
  to sync after its first rebase until it is hydrated (`Machine.Machine.Sync`:
  the rebase attaches it, and an attached machine never put back is refused).
- A rate below one write a minute never admits any
  (`Governor.WaitSuffices`, `Governor.SlowNeverAdmits`).

## Model

| member | source | states |
|---|---|---|
| `SeqNum.SeqLtExact` | src/net/wire.js:275-281 | the wrap-around comparison is the true order up to half the circle, undecided at exactly half and reversed beyond |
| `SeqNum.SeqOrder` | src/net/wire.js:275-281 | for positions less than half the circle apart all four comparisons and equality are the true ones |
| `SeqNum.AtInjective` | src/net/wire.js:275-281 | positions less than a full circle apart have equal numbers only when they are equal |
| `SeqNum.WithinFlight` | src/net/wire.js:275-281 | an acknowledgement accepted as lying past `sndUna` and not past `sndNxt` names a position in the flight |
| `TcpSender.StepKeeps` | src/net/stack.js:248-258 | no step with any segment from any peer breaks the sender: the stream written is what was sent followed by the outbox, the unacknowledged segments tile what is outstanding, every segment on the wire quotes the stream truthfully |
| `TcpSender.RunKeeps` | src/net/stack.js:350-407 | the same over every history, and at most 65536 positions are ever in flight |
| `TcpSender.AckStaysInFlight` | src/net/stack.js:248-258 | whatever number an acknowledgement carries, `sndUna` moves only forward and never past `sndNxt` |
| `TcpSender.AckKeeps` | src/net/stack.js:248-258 | after any acknowledgement the segments kept tile exactly what is still outstanding |
| `TcpSender.AcknowledgedPrefix` | src/net/stack.js:248-258 | dropping acknowledged segments leaves the tiling of what lies beyond the acknowledgement, empty exactly when all is acknowledged |
| `TcpSender.PumpKeeps` | src/net/stack.js:358-376 | pumping keeps the sender invariant whatever the window and the outbox |
| `TcpSender.WindowRespected` | src/net/stack.js:358-368 | data are sent only into the window: whenever pumping puts any out, what is in flight fits the peer's window |
| `TcpSender.FinIsLast` | src/net/stack.js:370-376 | the FIN takes the position after the last byte, and no later step writes, queues or advances `sndNxt` |
| `TcpSender.FinAckedOnlyAtEnd` | src/net/stack.js:248-258 | a FIN counts as acknowledged only when nothing at all is outstanding |
| `TcpSender.ConnectBegins` | src/net/stack.js:321-347 | an active open starts in the sender invariant |
| `TcpSender.AcceptBegins` | src/net/stack.js:180-197 | a passive open starts in it too |
| `TcpReceiver.DataKeeps` | src/net/stack.js:260-282 | truthful data in any order keep the delivered bytes a prefix of the stream and `rcvNxt` just behind them |
| `TcpReceiver.DrainKeeps` | src/net/stack.js:284-292 | handing over held segments keeps the prefix |
| `TcpReceiver.TextKeepsReading` | src/net/stack.js:260-310 | data and end of stream together keep it, and the end is announced only after all of the stream |
| `TcpReceiver.FinAcceptedExactlyWhenBare` | src/net/stack.js:299-310 | a FIN is accepted exactly when it carries no data and everything before it had been delivered; with its own text the stream is delivered whole all the same |
| `TcpReassembly.NothingLost` | src/net/stack.js:260-292 | once every segment of a stream has arrived, in whatever order and however often, all of the stream has been delivered |
| `TcpLink.StreamSafety` | src/net/stack.js:122-310 | end to end over every interleaving and a lossy, duplicating, reordering network, each way as long as that stream does not go round the circle: delivered is a prefix of written, `rcvNxt` agrees, the end is announced at most once and only after everything |
| `TcpWrap.SafeExactly` | src/net/stack.js:260-310 | and only that long: whichever end writes it, a stream is delivered faithfully in every reachable state exactly when, end included, it is shorter than the sequence space |
| `TcpWrap.OpenMisread` | src/net/stack.js:260-282 | for every longer stream of either end, a run from the handshake on in which an old segment is delivered behind it |
| `TcpWrap.EndedMisread` | src/net/stack.js:260-310 | the same with the stream ended, one byte earlier |
| `TcpLink.ReachableKeeps` | src/net/stack.js:122-310 | the invariant behind it holds in every reachable state of the two ends |
| `TcpLink.NextKeeps` | src/net/stack.js:122-310 | one step of either end or the network keeps that invariant |
| `TcpLink.StepContinues` | src/net/stack.js:350-376 | no step takes back or rewrites a byte of the stream already written |
| `TcpTimer.ResendsBounded` | src/net/stack.js:476-515 | each resend spends the budget, at most eight for each outstanding segment, and repeats the same number and bytes |
| `TcpTimer.UnansweredCloses` | src/net/stack.js:476-515 | however often the clock is looked at, a connection whose segments stay unanswered closes once more epochs of the longest timer have passed than its budget |
| `TcpTimer.ClosesInTime` | src/net/stack.js:476-515 | in milliseconds: eight epochs for each segment outstanding and one more, an epoch being the longest timer and the gap between looks |
| `TcpTimer.StepTimed` | src/net/stack.js:476-515 | every step keeps the timer in [200, 4000] and no segment is tried more than eight times |
| `TcpAcked.AckedIsDelivered` | src/net/stack.js:122-310 | end to end over every run, loss and reordering: bytes known to be acknowledged have been handed to the reader at the other end, in order, and an acknowledged FIN means that all was read and the end announced |
| `TcpAcked.NextWorth` | src/net/stack.js:122-310 | every step at either end keeps it: acknowledgements on the wire are never ahead of what was read |
| `TcpAcked.UnaFrom` | src/net/stack.js:248-258 | nothing counts as acknowledged but what an acknowledgement that arrived said |
| `TcpRules.WindowTaken` | src/net/stack.js:252-258 | the peer's window is that of the last acknowledgement heeded, an update to zero included, and changes with nothing else |
| `TcpRules.FlightFits` | src/net/stack.js:358-376 | whenever a segment, a write or a close puts data on the wire, all in flight fits the window last advertised, the FIN apart |
| `TcpRules.NothingHeldBack` | src/net/stack.js:358-376 | after every step data wait only for the window and the FIN only for data |
| `TcpRules.AlwaysAnswered` | src/net/stack.js:260-310 | data that arrive are always answered, and the last segment a step sends acknowledges all that has been read, and offers room |
| `TcpRules.StateAlwaysSays` | src/net/stack.js:122-153 | in every run the state says which of the two streams have ended, and a closed connection has nothing outstanding |
| `TcpRules.RunGoesOn` | src/net/stack.js:122-153 | a run goes on from where an earlier one ended, each input a step |
| `TcpRules.ClosedIsOver` | src/net/stack.js:525-539 | a closed connection refuses writes and does nothing but reset what still arrives |
| `TcpRules.HalfClosedExactly` | src/net/stack.js:350-355 | a write is taken exactly until the FIN is out, and refused as half-closed after it |
| `TcpRules.AckFinExactly` | src/net/stack.js:248-258 | the FIN counts as acknowledged exactly when everything is, and with the peer's end read the connection closes at once |
| `TcpRules.LastAckEnds` | src/net/stack.js:248-258 | an acknowledgement of everything sent, FIN included, settles the FIN and closes a connection whose peer has ended |
| `TcpRules.HandshakeExactly` | src/net/stack.js:155-217 | a handshake is completed by exactly the segments that answer it; anything else but a reset leaves the connection as it was |
| `TcpRules.Opens` | src/net/stack.js:321-347 | the first segment of each side, field by field, and the window each assumes |
| `TcpRules.BackoffDoubles` | src/net/stack.js:476-515 | with nothing acknowledged the timer after n resends is the first one doubled n times, at most four seconds |
| `TcpRules.ProgressResets` | src/net/stack.js:248-258 | new data acknowledged put the timer back to 200 ms, nothing else past the handshake changes it |
| `TcpRules.TickResends` | src/net/stack.js:490-515 | a look at the clock resends the first late segment, byte for byte with a current acknowledgement, and gives up after eight tries |
| `TcpRules.TickWaits` | src/net/stack.js:490-515 | and does nothing while none is late |
| `TcpRules.LingersTenSeconds` | src/net/stack.js:525-529 | with only this end over, the connection waits ten seconds for the other, and no longer |
| `TcpRules.BothEnded` | src/net/stack.js:525-529 | with both ends over the connection closes at once |
| `TcpRules.RefusalEndsAttempt` | src/net/stack.js:418-432 | nobody listening: the refusal acknowledges the SYN, and ends the attempt |
| `TcpRules.HandshakeTimesOut` | src/net/stack.js:476-489 | an unanswered handshake is given up at its deadline: the caller's for an opener, thirty seconds for an acceptor |
| `TcpRules.ResetCloses` | src/net/stack.js:122-153 | a reset closes without an answer |
| `TcpRules.ResetInTheirNumbers` | src/net/stack.js:418-432 | what nobody claims is reset in the sender's own numbers |
| `TcpRules.DestroyResets` | src/net/stack.js:542-550 | giving up sends a reset at the next number and closes |
| `TcpConnection.Connection.Connect` | src/net/stack.js:321-347 | the record after an active open is the step function's, SYN sent: equal to the step function on the whole record |
| `TcpConnection.Connection.Accept` | src/net/stack.js:180-197 | the record after a passive open, SYN and ACK sent: equal to the step function on the whole record |
| `TcpConnection.Connection.Emit` | src/net/stack.js:394-407 | one segment out: number, unacknowledged list and wire: equal to the step function on the whole record |
| `TcpConnection.Connection.SendAck` | src/net/stack.js:410-416 | an acknowledgement at the current position: equal to the step function on the whole record |
| `TcpConnection.Connection.Take` | src/net/stack.js:379-391 | the first bytes of the outbox, copied buffer by buffer, and the outbox without them: equal to the step function on the whole record |
| `TcpConnection.Connection.Pump` | src/net/stack.js:358-376 | everything the window has room for, then the FIN if one is due: equal to the step function on the whole record |
| `TcpConnection.Connection.Write` | src/net/stack.js:350-355 | bytes queued and pumped, or the reason they are refused: equal to the step function on the whole record |
| `TcpConnection.Connection.Teardown` | src/net/stack.js:531-539 | closed, with nothing outstanding: equal to the step function on the whole record |
| `TcpConnection.Connection.MaybeClose` | src/net/stack.js:525-529 | closed when both directions have ended, lingering when ours has: equal to the step function on the whole record |
| `TcpConnection.Connection.Finish` | src/net/stack.js:519-523 | our direction ended: equal to the step function on the whole record |
| `TcpConnection.Connection.Destroy` | src/net/stack.js:542-550 | a reset sent and the record closed: equal to the step function on the whole record |
| `TcpConnection.Connection.OnAck` | src/net/stack.js:248-258 | the acknowledgement taken into account: equal to the step function on the whole record |
| `TcpConnection.Connection.Deliver` | src/net/stack.js:294-297 | bytes handed to the socket: equal to the step function on the whole record |
| `TcpConnection.Connection.Drain` | src/net/stack.js:284-292 | adjoining held segments handed over until there is none: equal to the step function on the whole record |
| `TcpConnection.Connection.OnData` | src/net/stack.js:260-282 | data delivered, trimmed, held or ignored, and acknowledged: equal to the step function on the whole record |
| `TcpConnection.Connection.OnFin` | src/net/stack.js:299-310 | the peer's end of stream, when it is the next position: equal to the step function on the whole record |
| `TcpConnection.Connection.OnSynAck` | src/net/stack.js:155-171 | the handshake completed from our side: equal to the step function on the whole record |
| `TcpConnection.Connection.OnHandshakeAck` | src/net/stack.js:200-217 | and from the listening side: equal to the step function on the whole record |
| `TcpConnection.Connection.OnTcp` | src/net/stack.js:122-153 | any segment for this connection, by state: equal to the step function on the whole record |
| `TcpConnection.Connection.Tick` | src/net/stack.js:476-515 | lingering, the handshake deadline, and one resend or teardown: equal to the step function on the whole record |
| `TcpConnection.NetStack.AllocatePort` | src/net/stack.js:557-565 | the first free ephemeral port from where the last search ended, going round; none exactly when all are taken |
| `Wire.SumParts` | src/net/wire.js:71-80 | the loop over parts two bytes at a time, folded, is the complement of the folded sum |
| `Wire.FoldExact` | src/net/wire.js:78-79 | folding keeps the total modulo 65535 and only zero folds to zero |
| `Wire.SealedChecks` | src/net/wire.js:71-80 | with its own checksum put at an even offset, any data of odd or even length check out as zero |
| `Wire.ChangeNoticed` | src/net/wire.js:265-267 | a changed 16-bit word is noticed exactly when it is not between zero and all ones |
| `Frames.EncodeEthernet` | src/net/wire.js:91-103 | the frame filled in place is header, payload and padding to 60 bytes |
| `Frames.EncodeIp` | src/net/wire.js:147-166 | the packet filled in place carries the checksum of its own header |
| `Frames.EncodeTcp` | src/net/wire.js:224-247 | the segment filled in place carries the checksum over the borrowed addresses, header, options and payload |
| `Frames.EthReadsBack` | src/net/wire.js:105-113 | a decoded frame is the one sent, padded |
| `Frames.IpReadsBack` | src/net/wire.js:168-190 | a packet is read back exactly whatever padding follows it, and is no fragment |
| `Frames.IpHeaderChecks` | src/net/wire.js:163-164 | the header's checksum checks out |
| `Frames.TcpReadsBack` | src/net/wire.js:249-262 | a segment is read back exactly, with or without the size option |
| `Frames.TcpChecks` | src/net/wire.js:265-267 | and its checksum is valid |
| `Frames.FrameReadsBack` | src/net/wire.js:91-267 | Ethernet, IP and TCP decoding of an encoded frame give back all fields and the payload in spite of padding, and both checksums are right |
| `FrameRules.ValidExactly` | src/net/wire.js:265-267 | a segment passes the checksum exactly when the words of addresses, protocol, length and segment add up to a multiple of 65535 |
| `FrameRules.DamageRefused` | src/net/wire.js:265-267 | a valid segment damaged in any one word is refused, unless the damage is between all zeros and all ones |
| `FrameRules.IpAnyHeader` | src/net/wire.js:168-190 | a header of any length: options skipped, padding dropped, fragments told by the more-fragments bit or an offset |
| `FrameRules.IpRefused` | src/net/wire.js:168-175 | too short or another version is no packet; a length that cannot be is not heeded |
| `FrameRules.TcpAnyHeader` | src/net/wire.js:249-262 | options of any length are skipped |
| `FrameRules.TcpRefused` | src/net/wire.js:249-252 | a segment is read exactly when its header is whole |
| `FrameRules.TcpLayout` | src/net/wire.js:224-247 | where each field and option of a segment stands |
| `FrameRules.IpLayout` | src/net/wire.js:147-166 | where each field of a packet stands |
| `FrameRules.EthLayout` | src/net/wire.js:91-103 | where each field of a frame stands, and the padding |
| `FrameRules.EthAny` | src/net/wire.js:105-113 | a frame of any length is read, as long as its header is whole |
| `FrameRules.BigEndian` | src/net/wire.js:283-292 | numbers are read most significant byte first |
| `HttpParser.FindHead` | src/net/http.js:468-476 | the scan finds the first blank line, in either convention |
| `HttpParser.FindLineEnd` | src/net/http.js:479-485 | the scan finds the first line end |
| `Http.FindBlockStable` | src/net/http.js:468-476 | a blank line once found is the first one whatever arrives after it |
| `Http.RunMore` | src/net/http.js:109-183 | running on what has come and then on the rest is running on all of it |
| `Http.CutAnyhow` | src/net/http.js:73-81 | however the stream is cut, pushing the pieces gives the same error, the same response or the same waiting parser as pushing the whole |
| `Http.FragmentationIndependent` | src/net/http.js:73-99 | the same from a fresh parser, and for how it ends when the peer closes |
| `Http.CutsMatter` | src/net/http.js:185-215 | when a head without a body is followed by one that reads differently, two ways of cutting give two results |
| `HttpSend.TwoAnswers` | src/net/http.js:200-215 | a stream that is read differently when it is cut: an answer without a body and another behind it |
| `Http.IndependentExactly` | src/net/http.js:109-215 | independence of the cuts holds if and only if every complete head behind one without a body reads as the same response |
| `HttpParser.ResponseParser.Push` | src/net/http.js:73-81 | bytes appended and the loop run, unless it is over: equal to the parsing machine on the whole state |
| `HttpParser.ResponseParser.End` | src/net/http.js:84-99 | the close completes, truncates, or throws past the cap: equal to the parsing machine on the whole state |
| `HttpParser.ResponseParser.Run` | src/net/http.js:109-183 | the loop: equal to the parsing machine on the whole state |
| `HttpParser.ResponseParser.HeadTurn` | src/net/http.js:111-117 | the head, when it is there: equal to the parsing machine on the whole state |
| `HttpParser.ResponseParser.LengthTurn` | src/net/http.js:119-128 | a body of known length: equal to the parsing machine on the whole state |
| `HttpParser.ResponseParser.ChunkSizeTurn` | src/net/http.js:130-142 | a chunk's size line: equal to the parsing machine on the whole state |
| `HttpParser.ResponseParser.TrailerTurn` | src/net/http.js:144-161 | the blank line after the last chunk: equal to the parsing machine on the whole state |
| `HttpParser.ResponseParser.ChunkDataTurn` | src/net/http.js:163-179 | a chunk and its line break: equal to the parsing machine on the whole state |
| `HttpParser.ResponseParser.ParseHead` | src/net/http.js:185-215 | status, fields and framing: equal to the parsing machine on the whole state |
| `HttpParser.ResponseParser.TakeBody` | src/net/http.js:217-224 | body bytes counted, then kept or refused: equal to the parsing machine on the whole state |
| `HttpParser.ResponseParser.Body` | src/net/http.js:102-107 | one array: the parts in order, and without an error nothing else |
| `Http.CountKept` | src/net/http.js:217-224 | within the cap and without an error the length counted is the length kept, over every push and the close |
| `HttpSend.EncodeResponse` | src/net/http.js:365-382 | the lines collected in order, joined and put before the payload |
| `HttpSend.HeadReads` | src/net/http.js:193-201 | every field sent is read back under its lower-case name, and nothing else |
| `HttpSend.HeadFound` | src/net/http.js:468-476 | the head of a serialised message ends where it was ended and decodes to its lines |
| `HttpSend.ResponseReadsBack` | src/net/http.js:365-382 | a serialised response is read back, status, reason, fields and body, in whatever pieces it arrives and without waiting for the close; past the cap it is refused |
| `HttpSend.ReasonsGiven` | src/net/http.js:384-387 | a reason of the caller's is kept; otherwise the known statuses have theirs and no others |
| `HttpChunked.Dechunks` | src/net/http.js:130-179 | a well-formed chunked body, extensions and trailers included, is read as its data in order |
| `HttpChunked.ChunkedReadsBack` | src/net/http.js:109-183 | and so under every fragmentation of the whole response |
| `HttpChunked.ChunksRefused` | src/net/http.js:130-179 | what is no chunk size, too much body, or data without a line break is refused for that reason under every fragmentation |
| `HttpChunked.ChunksMissing` | src/net/http.js:86-99 | a chunked stream that ends early is refused at the close, not before, with what is missing |
| `HttpAnswer.StatusExactly` | src/net/http.js:185-191 | a line is taken for a status line exactly when it is one, with its three digits and its reason |
| `HttpAnswer.LinesRead` | src/net/http.js:193-201 | each name has all the values given under it in any case, trimmed and joined in order with commas, and nothing else; lines without a colon are passed over |
| `HttpAnswer.AnswerHead` | src/net/http.js:111-215 | a head with any fields, in either line-break convention, is found where it ends, read for what it says, and framed as chunks, by length, by the close, or not at all |
| `HttpAnswer.CloseReadsBack` | src/net/http.js:83-99 | an answer that only the close ends: in any pieces it is not over before, and then has status, reason, fields and exactly the bytes behind its head; past the cap the close throws |
| `HttpAnswer.LengthReadsBack` | src/net/http.js:119-128 | an answer with a length: over with that many bytes, which are its body; short of them the close says how many are missing; no length is refused |
| `HttpAnswer.BodilessReadsBack` | src/net/http.js:207-211 | 204, 304 and 1xx without framing are over with their head |
| `HttpAnswer.ChunksReadBack` | src/net/http.js:109-183 | an answer in chunks, from its head on, in any pieces |
| `HttpAnswer.HeadMissing` | src/net/http.js:91-95 | a stream that ends inside its head is refused at the close, not before |
| `HttpAnswer.NoStatusRefused` | src/net/http.js:185-189 | a head that does not start with a status line is refused |
| `HttpAnswer.ExtensionIgnored` | src/net/http.js:130-137 | a chunk's size is what is before the first semicolon, white space apart |
| `HttpAnswer.ContainsExactly` | src/net/http.js:203-205 | the coding is found exactly where the word occurs |
| `HttpAnswer.TrimExactly` | src/net/http.js:193-201 | trimming takes white space off both ends, all of it and nothing else |
| `HttpAnswer.SpaceExactly` | src/net/http.js:193-201 | which characters are white space |
| `HttpAnswer.LowerExactly` | src/net/http.js:193-201 | which letters change their case |
| `HttpRequest.CutAnyhow` | src/net/http.js:309-332 | however a request is cut, the parser reads what it reads from the whole, without exception |
| `HttpRequest.EncodeRequest` | src/net/http.js:28-47 | the request lines collected in order, Host, Connection and Content-Length added where the caller sent none |
| `HttpRequest.RequestReadsBack` | src/net/http.js:28-47 | a serialised request is read back, method, target, fields and body, in whatever pieces it arrives; past the cap it is refused |
| `HttpAsked.RequestLineExactly` | src/net/http.js:345-349 | a line is taken for a request line exactly when it is one: a method in capitals, a target without white space, a version |
| `HttpAsked.LinesSet` | src/net/http.js:350-354 | of a repeated field the last value counts, trimmed and under its lower-case name |
| `HttpAsked.RequestReads` | src/net/http.js:309-361 | a request however written and cut: over with the last byte of the body its fields give, not before; no length and too much are refused |
| `HttpAsked.NoRequestRefused` | src/net/http.js:345-348 | a head that does not start with a request line is refused |
| `HttpParser.RequestParser.Push` | src/net/http.js:309-332 | bytes appended, head and body taken: equal to the parsing machine on the whole state |
| `HttpParser.RequestParser.ParseHead` | src/net/http.js:345-361 | request line, fields, length: equal to the parsing machine on the whole state |
| `HttpParser.RequestParser.TakeBody` | src/net/http.js:318-327 | body bytes up to the length, or refused: equal to the parsing machine on the whole state |
| `Chunker.DirtyChunks` | src/core/chunker.js:26-45 | refuses exactly the misplaced ranges, otherwise the dirty chunks, ascending and without repetition |
| `Chunker.TouchedExact` | src/core/chunker.js:26-45 | a chunk is dirty exactly when one of its bytes is written |
| `Chunker.FaultExactly` | src/core/chunker.js:32-40 | a range is refused exactly when it writes a byte that is not on the disk, as negative when the first is |
| `Chunker.ChunkOnDisk` | src/core/chunker.js:51-60 | a chunk lies on the device exactly when its index is below the count |
| `Chunker.WriteMisses` | src/core/chunker.js:26-45 | a write leaves every chunk outside its span as it was |
| `Chunker.SameDisk` | src/core/chunker.js:51-55 | disks that agree on every chunk are the same disk |
| `Capture.CaptureLog.Record` | src/device/v86.js:132-145 | the log, extended in place or by an entry, covers what it covered and the new write |
| `Capture.CaptureLog.RecordAll` | src/device/v86.js:132-145 | for every sequence of writes the coalesced log covers the bytes of the uncoalesced one and dirties the same chunks |
| `Capture.TouchingExactly` | src/device/v86.js:137-142 | writes are coalesced exactly when the later starts no earlier and leaves no gap |
| `Capture.RawLogWrites` | src/device/v86.js:132-145 | the log covers exactly the bytes written |
| `Capture.CaptureLog.Seal` | src/device/v86.js:152-156 | the epoch handed out and a new one begun |
| `Capture.SealThenRecord` | src/device/v86.js:152-156 | a sealed epoch never changes, whatever is recorded afterwards |
| `Capture.SameBytesSameChunks` | src/core/chunker.js:26-45 | logs that cover the same bytes have the same dirty chunks |
| `Sweep.BytesTouched` | src/analysis/sweep.js:34-45 | exactly the number of device bytes that some range writes, for ranges in any order, overlapping, nested or empty |
| `Sweep.CostAt` | src/analysis/sweep.js:54-75 | uploaded bytes are the bytes of the dirty chunks, touched bytes the bytes written, amplification their ratio, one request for each dirty chunk and three more |
| `Sweep.TouchedWithinUploaded` | src/analysis/sweep.js:54-75 | touched bytes are at most uploaded bytes, at every size and a clamped last chunk |
| `Sweep.TradeOff` | src/analysis/sweep.js:54-88 | a chunk size against a multiple of it: no more bytes for the smaller, no more requests for the larger |
| `Device.MemoryDevice.Write` | src/device/memory.js:55-60 | a guest write waits, or is refused past the end |
| `Device.MemoryDevice.Flush` | src/device/memory.js:62-69 | the disk becomes the old one with the waiting writes applied in order, each recorded |
| `Device.MemoryDevice.Seal` | src/device/memory.js:71-75 | the epoch handed out and a new one begun |
| `Device.MemoryDevice.WriteRaw` | src/device/memory.js:85-90 | written without being recorded, or refused past the end |
| `Device.MemoryDevice.ReadChunk` | src/device/memory.js:92-95 | the chunk, clamped at the end of the device |
| `Device.ApplyMisses` | src/device/memory.js:62-69 | a chunk no write touches is as it was |
| `Device.LastWriteDecides` | src/device/memory.js:62-69 | after a flush a byte is what the last write over it put |
| `Device.UnwrittenStays` | src/device/memory.js:62-69 | and what no write is over stays |
| `Repo.MemoryHost.Commit` | app/demo-loop.js:58-77 | objects, tree and commit are kept in any case; the branch moves exactly when it is where the parent says, or the commit is an orphan |
| `Repo.DepositGrows` | app/demo-loop.js:58-77 | a commit takes nothing away and files every object under its own hash |
| `Repo.RepresentsOne` | src/core/manifest.js:1-11 | a manifest stands for one disk only |
| `Repo.CreateExactly` | src/core/manifest.js:33-56 | a manifest is created exactly for a disk of some size in chunks of some size over a named image, with nothing stored |
| `Repo.LiveHolds` | src/core/machine.js:251-286 | a live commit holds its manifest at the id that is its hash |
| `Epoch.Dedup` | src/core/machine.js:241-249 | every chunk is known or carried once, and the two counts add up |
| `Epoch.NextRepresents` | src/core/machine.js:284-295 | the next manifest stands for this epoch's chunks over what was committed |
| `Epoch.NextCovered` | src/core/machine.js:287-294 | digests that covered every chunk still do |
| `Epoch.TreeIsLive` | src/core/machine.js:303-321 | the tree lists each object the manifest names once, and the manifest |
| `Epoch.UploadStores` | src/core/machine.js:241-310 | after the upload every chunk of the epoch is in the store, known ones included |
| `Epoch.GraftChunks` | src/core/machine.js:347-370 | a grafted disk has the epoch's chunks from one disk and every other from the other |
| `Machine.Machine.ReadBranch` | src/core/machine.js:57-100 | the branch's head, manifest and tree taken over, or which of the three reasons why not and what has moved all the same |
| `Machine.Machine.Begin` | src/core/machine.js:57-72 | a new machine is a copy of its base, with nothing adrift and nothing known that is not reached |
| `Machine.Machine.Attach` | src/core/machine.js:74-99 | an attached machine stands for the committed disk; its device is still the base |
| `Machine.Machine.GuestWrite` | src/device/memory.js:55-60 | a guest write keeps the machine valid |
| `Machine.Machine.GuestFlush` | src/device/memory.js:62-69 | a flush keeps the device agreeing with what is committed outside the epoch |
| `Machine.Machine.Hydrate` | src/core/machine.js:117-142 | cannot fail on a sound repository, and afterwards the device is a copy of what is committed, but for chunks the manifest does not hold |
| `Machine.Machine.ReadDirty` | src/core/machine.js:225-239 | with guest writes before every read, the chunks prepared are those of one disk, which agrees with the device wherever nothing has been written since |
| `Machine.Machine.CommitOnce` | src/core/machine.js:284-336 | lands exactly when the branch is at this machine's head; then the manifest stands for the target, the commit is live with that one parent, and what is known grows by what it names |
| `Machine.Machine.ResolveConflict` | src/core/machine.js:347-370 | committed over the other writer's disk when every chunk both wrote is byte for byte the common ancestor's in theirs; otherwise refused, naming chunks that differ there or are new, with the branch where it was |
| `Machine.Machine.Sync` | src/core/machine.js:192-282 | keeps device and committed disk in agreement outside pending writes and named chunks; refused, skipped, committed, rebased or failed exactly as the branch and the dirty chunks say; a failed sync leaves the branch where it was |
| `Machine.Machine.Session` | src/core/machine.js:192-282 | over every run of putting back, guest writes, flushes and syncs on an uncontested branch device and committed disk agree outside pending writes, the device has what the guest wrote, the manifest keeps its geometry and base, and the pin is of what was committed |
| `Machine.Machine.SessionThenSync` | src/core/machine.js:467-519 | after any such run and one more sync, restoring the branch over the base the machine had gives the device byte for byte |
| `Machine.Machine.RestoresToCommitted` | src/core/machine.js:467-519 | in any state of a sound machine its head restores to the committed disk |
| `Machine.Machine.PinnedToDevice` | src/core/machine.js:467-519 | with a blank base and nothing compacted a restore against the pin the machine recorded fails or gives the device, whatever tree, objects and base it is answered with |
| `Lifetime.FromFresh` | src/core/machine.js:57-282 | from a new branch with a base: after any use and a last sync the branch restores over that base to the device, which has what the guest wrote; with a blank base a restore against the recorded pin fails or gives the device, whatever it is answered |
| `Lifetime.FromBranch` | src/core/machine.js:57-282 | from a branch with a machine on it: put back, used and synced, the same over the base of the manifest found |
| `Lifetime.Reboot` | src/core/machine.js:102-142 | a second device, a copy of the base, attached later and put back, is the first one byte for byte and goes on from there |
| `Lifetime.RebasedAcrossSizes` | src/core/machine.js:346-370 | an epoch rebased over a manifest with another chunk size is no conflict, and its commit cannot be restored |
| `Lifetime.CollectThenGoOn` | src/core/machine.js:411-436 | when the host has dropped every object the head does not reach, the machine goes on, and the branch still restores to its device |
| `Lifetime.SyncOverOther` | src/core/machine.js:284-370 | when the branch has moved: over the base both have, the new head restores to the three-way merge, or the sync is refused, on chunks that clash in contents, and the branch still restores to the other writer's disk |
| `Lifetime.CompactThenRestore` | src/core/machine.js:382-446 | over the base it had, a compacted branch restores to the device exactly when its digests still fit, and is refused otherwise |
| `Lifetime.CompactSettled` | src/core/machine.js:382-446 | with nothing pending and nothing adrift compaction leaves the branch restoring to the disk it restored to before |
| `Lifetime.ChangedThenCompacted` | src/core/machine.js:407-414 | a machine whose compacted commit is refused |
| `Machine.Machine.RestoresToDevice` | src/core/machine.js:467-519 | with nothing pending and nothing adrift the head restores to the device |
| `Machine.Machine.GatherDisk` | src/core/machine.js:398-405 | every chunk of the disk read, hashed and kept once |
| `Machine.Machine.Compact` | src/core/machine.js:382-446 | one commit without parents takes the branch and lists the disk; the machine is in order again exactly when no chunk with a kept digest has changed |
| `SyncState.CommitSound` | src/core/machine.js:284-336 | what the host deposits for an epoch is sound: stored, live, listed once, standing for the target |
| `SyncState.HeldIsFound` | src/core/machine.js:74-99 | the manifest a commit holds is the one read from it |
| `SyncState.ReadsSettle` | src/core/machine.js:225-239 | once the target is committed the dirty chunks agree as well, whatever was written meanwhile |
| `SyncState.FlushAgrees` | src/device/memory.js:62-69 | every chunk a flush changes is in the epoch |
| `SyncState.HydratedAgrees` | src/core/machine.js:117-142 | base and written chunks make the committed disk |
| `SyncState.RebaseKeeps` | src/core/machine.js:347-370 | a rebase is a chunkwise three-way merge: ours on our chunks, theirs on theirs, the common ancestor elsewhere |
| `SyncState.TakeoverKeeps` | src/core/machine.js:347-365 | after a refused rebase only the chunks that differ are newly adrift |
| `SyncState.ClashesFound` | src/core/machine.js:355-365 | the chunks found changed by the other writer are exactly those whose contents clash with the ancestor's |
| `Reachability.SoundAfterCollection` | src/core/machine.js:411-436 | a sound machine whose knowledge is reached from its head is as sound after every other object has been collected, and its knowledge still reached |
| `Reachability.CommitKeepsReached` | src/core/machine.js:323-333 | what a machine takes for stored stays reached from its head when an epoch lands |
| `Restore.RestoreDisk` | src/core/machine.js:467-519 | the loop filling one buffer is the restore of the manifest read, chunk by chunk, first failure first |
| `Restore.PutInPlace` | src/core/machine.js:493-510 | one chunk fetched, verified, deciphered and put in place, or nothing written |
| `Restore.PinnedRestoreExact` | src/core/machine.js:485-549 | pinned manifest, blank base and a digest for every chunk: a restore fails or returns exactly the committed disk, whatever tree, object API and CDN answer |
| `Restore.OnlyTruthPasses` | src/core/machine.js:538-549 | a restore of a fully digested manifest that ends well was given the right bytes every time |
| `Restore.RestoreReturns` | src/core/machine.js:467-519 | a commit restores, without failing, to the disk its manifest stands for, from the host's own objects and any CDN that may lag behind them |
| `Restore.BaseIs` | src/core/machine.js:560-576 | the base is zeros when blank and otherwise what its address gives, cut to the disk or with zeros behind it; without a loader it is refused |
| `Restore.Supplied` | src/core/machine.js:560-576 | so a base of the disk's size is restored from as it is |
| `Restore.WrongAnswerRefused` | src/core/machine.js:493-549 | a wrong answer of the CDN is not made good by the API: with a digest it ends the restore |
| `Restore.PutExactly` | src/core/machine.js:493-549 | a chunk is put exactly when it is there, matches its digest, deciphers and fits; and then only over its own bytes |
| `Compaction.CompactedStands` | src/core/machine.js:407-414 | the compacted manifest stands for the device exactly when its kept digests still fit |
| `Compaction.CompactedRestores` | src/core/machine.js:382-446 | the compacted commit restores to the device exactly when no chunk with a kept digest has changed, and is refused with a mismatch otherwise |
| `Compaction.OldPinRefused` | src/core/machine.js:426-436 | the pin from before a compaction is refused |
| `Lease.Exclusion` | src/core/lease.js:93-138 | between a lease landing and its expiry nobody else's write lands unless the holder's own release landed first, over every interleaving |
| `Lease.OneWinner` | src/core/lease.js:181-220 | of any calls that read the same commit at most one lands |
| `Lease.HeldUntilExpiry` | src/core/lease.js:141-147 | whatever the calls already under way go on to do, until expiry the branch still says the holder has it, or the holder has given it up |
| `Lease.CheckedIsAlone` | src/core/lease.js:156-179 | once a holder's check passes no other's passes until the lease seen expires or is given up |
| `Lease.StepKeeps` | src/core/lease.js:77-220 | every read, check, stamp, landing and tick keeps landings one chain, each entitled by what it had read |
| `Lease.Reachable` | src/core/lease.js:77-220 | and so does every run from an unused branch |
| `Lease.AttemptIsRun` | src/core/lease.js:93-138 | a call with nobody in between is one run of the interleaved machine |
| `Lease.AttemptSettles` | src/core/lease.js:93-138 | alone, taking a lease fails exactly on somebody else's that has not expired |
| `Lease.AttemptOutcomes` | src/core/lease.js:93-138 | when each call goes through, what it is told otherwise, and every field of the record it writes |
| `Lease.TookThenChecked` | src/core/lease.js:156-179 | after a call that went through: the holder may write until the expiry, anybody else is told who holds it, and after a release nobody may |
| `Lease.HolderPasses` | src/core/lease.js:156-179 | the holder's check passes on every later state of every run until the expiry, unless the lease was given up |
| `Lease.Lease.Read` | src/core/lease.js:77-85 | what the head says |
| `Lease.Lease.Acquire` | src/core/lease.js:93-114 | taken, or who has it and for how long |
| `Lease.Lease.Renew` | src/core/lease.js:120-130 | extended by its holder, or a discovery |
| `Lease.Lease.Release` | src/core/lease.js:133-138 | given up by its holder |
| `Lease.Lease.AssertHeld` | src/core/lease.js:156-179 | the reason not to write, if there is one |
| `Lease.Lease.Write` | src/core/lease.js:181-220 | landed from what was read, or the race lost |
| `NbdProtocol.OptionReadsBack` | src/device/nbd-protocol.js:66-80 | an option is read back from its builder's bytes, whatever follows |
| `NbdProtocol.RequestReadsBack` | src/device/nbd-protocol.js:86-106 | and a request, header and payload, whatever follows |
| `Nbd.FragmentationIndependent` | src/device/nbd.js:147-201 | when no whole item is left at the end every cut leads to the very same server, its buffer included |
| `NbdCuts.IndependentExactly` | src/device/nbd.js:147-201 | the bytes sent and the disk are the same for all cuts exactly when nothing that would be answered is behind the end: a condition on the bytes of the stream alone |
| `NbdCuts.CutCalmly` | src/device/nbd.js:147-201 | then every cut has sent the same and left the same disk, at every point of the stream |
| `NbdCuts.CutsMatter` | src/device/nbd.js:147-201 | otherwise two cuts send the client different bytes |
| `NbdCuts.CalmEnds` | src/device/nbd.js:147-201 | a stream has nothing behind its end exactly when the server has not come to the end or what is left in its buffer would not be answered |
| `NbdCuts.WriteBehindEnd` | src/device/nbd.js:170-189 | a stream whose cuts show on the disk: a disconnect and a write behind it |
| `Nbd.SaysAsMuch` | src/device/nbd.js:147-201 | in any case, up to the first end the server says the same in the same order |
| `Nbd.SessionServed` | src/device/nbd.js:100-201 | a whole session in any pieces: each request answered in order on the disk the ones before left, refused ones consumed whole |
| `NbdClient.HandledRight` | src/device/nbd.js:100-142 | what each request does and is answered: a read gets the disk's bytes from its offset on, past the end nothing is done; only writes change bytes and are recorded |
| `NbdClient.LastWriteDecides` | src/device/nbd.js:112-118 | after any requests a byte is what the last write carried out there put |
| `NbdClient.NoWriteKeeps` | src/device/nbd.js:112-118 | and what none wrote stays |
| `NbdClient.ServedRight` | src/device/nbd.js:100-189 | parsed by a client, every reply has its request's handle, the right error and, for a read, the bytes the writes before it left |
| `NbdClient.SessionAnswered` | src/device/nbd.js:147-201 | a whole session from the client's end, in any pieces: greeting, size, padding unless declined, then those replies and nothing else |
| `NbdClient.SessionEnds` | src/device/nbd.js:183-189 | a disconnect behind the requests is acknowledged once they are answered, and then the server ends |
| `NbdClient.OptionRefused` | src/device/nbd.js:163-173 | asked for anything but the export the server ends at once |
| `NbdClient.RequestLayout` | src/device/nbd-protocol.js:86-106 | where each field of a request stands |
| `NbdClient.OptionLayout` | src/device/nbd-protocol.js:66-80 | where each field of an option stands |
| `NbdClient.NonsenseStops` | src/device/nbd.js:170-189 | bytes that are no request stop the server for good, whatever follows |
| `Nbd.FeedRecords` | src/device/nbd.js:115-118 | every byte that differs from the last seal lies in a recorded range, however long the client is served |
| `NbdDevice.Device.Handle` | src/device/nbd.js:100-141 | one request answered |
| `NbdDevice.Device.Seal` | src/device/nbd.js:71-75 | the epoch handed out |
| `NbdDevice.Device.WriteRaw` | src/device/nbd.js:87-92 | written without being recorded, or refused |
| `NbdDevice.Device.ReadChunk` | src/device/nbd.js:81-84 | the chunk, clamped |
| `NbdDevice.Connection.OnData` | src/device/nbd.js:192-198 | bytes appended and drained: equal to the stream machine on the whole state |
| `NbdDevice.Connection.Drain` | src/device/nbd.js:154-189 | the loop: equal to the stream machine on the whole state |
| `Governor.WindowBound` | src/core/governor.js:49-70 | in any window of any run, wherever it opens and refusals included, at most rate * (1 + minutes) writes are admitted |
| `Governor.StaysInRange` | src/core/governor.js:49-55 | the bucket never holds less than nothing nor more than a minute's worth |
| `Governor.Conserved` | src/core/governor.js:49-70 | tokens held and writes admitted never exceed what was held and what the time is worth |
| `Governor.WaitSuffices` | src/core/governor.js:64-68 | alone, a writer finds a token after the computed sleep exactly when the rate is at least one a minute |
| `Governor.WaitIsLeast` | src/core/governor.js:64-68 | and a millisecond less would not do |
| `Governor.AdmitsExactly` | src/core/governor.js:58-63 | a writer is let through exactly when what was left and what the time since is worth make a token, for one token |
| `Governor.RefusalCosts` | src/core/governor.js:106-120 | a refusal costs all that was saved: the next write waits until the time since has earned it |
| `Governor.RunOne` | src/core/governor.js:58-120 | a run of one event is that event |
| `Governor.HalvedExactly` | src/core/governor.js:111 | the concurrency is halved, rounded down, but not below the least |
| `Governor.SlowNeverAdmits` | src/core/governor.js:58-70 | a rate below that admits nothing, ever |
| `Governor.AllWritten` | src/core/governor.js:129-154 | however the workers interleave, with no failure every write has been made once all have gone, and a failure is a write that ended badly |
| `Governor.WorkEnds` | src/core/governor.js:129-154 | however the workers interleave they end: two moves a task and one a worker at most, and while not all have gone one can move |
| `Governor.MoveAdvances` | src/core/governor.js:134-149 | each move of a worker does nothing or brings the end nearer, and after a failure no task is begun |
| `Governor.PoolRunNext` | src/core/governor.js:134-149 | a run of the workers goes on move by move |
| `Governor.Governor.Fill` | src/core/governor.js:49-55 | refilled by the clock, capped |
| `Governor.Governor.Look` | src/core/governor.js:58-68 | one token taken, or how long to sleep |
| `Governor.Governor.Refuse` | src/core/governor.js:106-120 | the bucket emptied, the concurrency halved, the wait asked for or a second; past the retries nothing but the error |

## Left out

- Machine.Machine.Sync: a second race lost within one sync (the rebase's own commit rejected) does not arise, because nobody else commits during a call; the lease check at its start is `Lease.Lease.AssertHeld`.
- Machine.Machine.ResolveConflict: another writer's head for a device with another chunk size or base image, which is taken over unchecked when only the disk size agrees; that such a rebase corrupts is `Lifetime.RebasedAcrossSizes`.
- Machine.Machine.Hydrate: failure of a single object read is possible only on a repository that is not sound; what an arbitrary source can do is stated for `Restore`.
- TcpLink.StreamSafety: one connection in each direction; a port reused after a close by a second connection, and its stray segments, are not modelled.
- TcpReassembly.NothingLost: no such claim with data on the FIN, or when the peer's window stays at zero: there is no window probe.
- Governor.WindowBound: floating-point rounding and timers that fire early.
- Nbd.SaysAsMuch: bytes that arrive while a request is being handled count as arriving before or after it.
- Http.IndependentExactly: lower-casing and the header names every object inherits (`constructor`) are the ASCII ones only; what decoding and number parsing do with other text is a parameter.
- HttpAnswer.AnswerHead: one line-break convention within a head; a head that mixes them, or that starts with a byte-order mark, is covered only by what is said of cuts.
- TcpAcked.AckedIsDelivered: streams that with their SYN and their end go round the sequence numbers.
- ARP, ICMP, MAC and IP addresses as strings, event callbacks, promises, statistics, and what a socket's callbacks do to the stack while they run.
- The request helper and server loop of `src/net/http.js`, query strings, and percent-encoding.
- Finding and wrapping the emulator's disk buffer, its asynchronous reads, and the serial-console flush.
- Waiting for a kernel's flush on the served device, and the discarded ranges once recorded.
- Manifest versions, encryption parameters, the machine's identifier, snapshots, `markHydrated` and the cost figures in reports.
- Collection of objects by a host while a sync is under way, and what a machine takes for stored after another writer has dropped the history it was in.
- Lease.Lease.Acquire: does not model `steal`, nor hosts without compare-and-swap; with either a lease promises no exclusion.
- Latency-driven backpressure of the governor; time and money estimates of the sweep, and `alignmentCost`.
- Real hosts, WebCrypto, sign-in, the service worker, the guest's shell, publishing and bisection: input and output, or simple beside the parts above.
