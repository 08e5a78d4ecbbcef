# USMP session stack: a verified model

This project models the stateful layer of USMP, the small secure messaging protocol of this
repository, and proves what that layer promises. The layer exists twice, in Python under asyncio
and in C for microcontrollers, with one wire format between them. `dafny verify dfyconfig.toml`
checks everything.

## What is modelled

| file | models | main results |
|---|---|---|
| `Crc16.dfy`, `CrcParity.dfy`, `Frame.dfy`, `Vectors.dfy` | the CRC register bit by bit, the frame printer and both parsers, `read_frame`, the C buffer routines; the byte layout | bursts and odd numbers of errors detected at any length, decode/encode identities, self-delimiting streams |
| `TcpReader.dfy` | the exact-read loop of the ESP32 TCP transport over any chunking, with stalls | successive calls return exactly the frames of the stream; when exactly a call returns one |
| `ReplayWindow.dfy` | the 64-bit sliding window, signed (Python) and wrapping unsigned (C) | it simulates the set of all accepted sequences |
| `SymbolicKeys.dfy` | keys, rekeying and AEAD as symbolic terms | crossed keys stay crossed; a rekeyed key is a larger term |
| `SessionSend.dfy`, `SendProgress.dfy` | the Python transmit side as a machine whose steps end at the awaits | nonce uniqueness and message atomicity under every interleaving; a task that gets the lock sends exactly its frames |
| `RekeySync.dfy`, `RekeyLink.dfy` | two ends, two queues, any number of in-band rekeys; the ends as the Python and the C session | synchronisation of keys and sequences |
| `SessionReceive.dfy`, `RecvCalls.dfy`, `RecvFilter.dfy`, `RecvLimits.dfy`, `Reassembly.dfy`, `RoundTrip.dfy` | `recv`, over streams and datagrams, and any number of calls of it | nothing repeated, forged or old has any effect; reassembly safety; `recv` undoes `send` over whole message lists; when a call ends early |
| `EndToEnd.dfy` | concurrent senders at one end, `recv` at the other | what any interleaving of tasks sends is received, in lock order |
| `UdpArq.dfy`, `UdpStream.dfy`, `UdpExchange.dfy` | the stop-and-wait ARQ over a lossy, duplicating, reordering network; `UDPStream` with its byte buffer; two of them as peers | exactly-once in-order delivery; the buffer never loses a datagram boundary; when an acknowledgement counts; the stream refines the ARQ |
| `Rto.dfy` | the integer Jacobson/Karn timer against the exact filter | accuracy bounds for any number of samples, no wrap |
| `Handshake.dfy`, `HandshakeKeys.dfy`, `HandshakeRoutines.dfy`, `CoreHandshake.dfy` | the four messages in a network run by an attacker; the Python and C routines | injective agreement in both directions, crossed keys, under the key that belongs to the device |
| `CoreTransmit.dfy`, `CoreReceive.dfy`, `CoreFilter.dfy`, `CoreRoundTrip.dfy`, `CoreLifecycle.dfy`, `CoreSession.dfy` | the C session: transmit path, `usmp_recv` over the caller's buffer, connect, reconnect and close | transmit discipline over whole runs, bounds and meaning of `usmp_recv`, what it lets through, round trip of message lists from a connect on |
| `Interop.dfy` | the C and the Python session as each other's peer | same frames; each receives what the other sends |
| `CookieLimiter.dfy`, `CookieEviction.dfy`, `HandshakeBackoff.dfy`, `ConnAccounting.dfy` | the server's limiters and connection tables | invisible pruning and rate bounds from both sides; lock-out escalation; counts conserved in every interleaving |

Cryptography is symbolic: an AEAD box opens exactly under its own key, sequence, session id and
header fields; HMACs, public keys, nonces and session ids are terms that remember their origin,
and a run's fresh random values belong to that run alone. The network, the clock and the transport
are inputs: every theorem that mentions them holds for all of their behaviours. Python's floats
are reals here.

A routine that updates variables or buffers step by step is a method, proved equal to a function
on values; the properties of whole runs are lemmas about those functions. The Python transmit
side and the ARQ are step relations, because what matters there is the interleaving.

## Where the code does less than it seems to

Each of these is a lemma or a method's contract, with the condition under which the promise does
hold.

- `send` in Python, unlike `usmp_send`, does not count the sequence numbers a message will need,
  so a message begun with some but too few left is cut (`ShortOfSequencesCutsMessage`). A failed
  write and a REKEY received inside a message cut it as well. `MessageAtomicity` excludes exactly
  these three events.
- On datagrams, a `rekey()` completed by another task of the same process while `recv` holds part
  of a message lets a frame of the new epoch complete it (`RekeyInsideDatagramsSplices`).
  `ReassemblySafety` excludes exactly that; over a stream nothing needs excluding.
- In any state in which a `drain` is given up before its frame has entered the peer's buffer, and
  for as long as that frame has not come, some continuation makes the peer accept a later frame
  without it (`GivenUpFrameIsSkipped`). A `drain` that fails only for want of its acknowledgement
  does no harm (`ExactlyOnceInOrder`).
- A handshake frame that finds the read buffer full is marked as seen before it is dropped, so its
  retransmission is acknowledged and never delivered (`Stream.HandshakeFrameTwice`, which says when
  exactly it is delivered).
- A frame sent toward a REKEY that is still coming, and a rekey started while the peer's frames
  are in flight (so also two rekeys at once), are always refused (`FrameAgainstRekeyIsRefused`,
  `RekeyAgainstFramesIsRefused`).
- `usmp_reconnect` on a transport without a reconnect hook reports failure, wipes the keys and
  leaves an established session established, so that it goes on under all-zero keys
  (`FailedReconnectSends`, `HooklessReconnectRepeats`). `TransmitDiscipline` is about transports
  that have the hook.
- The cookie limiter's promise of ten requests and five more per second fails once hard eviction
  takes an address's own entry: twenty in a fiftieth of a second (`EvictionRefills`). `WindowBound`
  allows ten more for each such eviction and none otherwise.
- A connection closed while the server waits for HELLO or HELLO_ACK counts as a failed handshake,
  although the comment at the end of `server_handshake` says that clean disconnects do not
  (`GuardedServerHandshake`).
- The lock-out after failed handshakes is capped at a minute only up to an address's 1028th
  failure: the next computes `2.0 ** 1024`, which raises, and is not recorded
  (`BlockedAfterFailure`). Any other address's failure after a lock-out is over wipes the count
  (`OthersReset`).

One more difference is only between the code and a comment: `core/include/usmp.h` gives 452 bytes as
the maximum for `usmp_send`; the code fragments up to 1808.

## Model

| member | source | states |
|---|---|---|
| `Crc16.Update` | core/src/usmp_frame.c:8-19 | the byte loop computes the CRC register from any start value |
| `Crc16.CrcFromConcat` | core/src/usmp_frame.c:40-47 | header and payload fed one after the other give the CRC of their concatenation |
| `Crc16.ShiftIsLinear` | core/src/usmp_frame.c:11-16 | one register shift distributes over exclusive or |
| `Crc16.ShiftIsInjective` | core/src/usmp_frame.c:11-16 | one register shift loses nothing |
| `Crc16.ShiftIsOnto` | core/src/usmp_frame.c:11-16 | every register value is the shift of another, so the shift is a bijection |
| `Crc16.CrcIsBitSerial` | sdk/python/src/usmp/_frame.py:15-25 | the bytewise CRC is the serial one-bit register over the message bits |
| `Crc16.FeedIsLinear` | sdk/python/src/usmp/_frame.py:15-25 | two runs differ by a run on the difference of their messages |
| `Crc16.BurstDetected` | sdk/python/src/usmp/_frame.py:15-39 | messages of one length that differ only inside sixteen consecutive bits have equal CRCs only if they are equal |
| `CrcParity.ShiftKeepsParity` | sdk/python/src/usmp/_frame.py:15-25 | one register shift keeps the parity of the register |
| `CrcParity.OddErrorsDetected` | sdk/python/src/usmp/_frame.py:15-39 | messages of one length that differ in an odd number of bits never have equal CRCs |
| `Vectors.VectorHello` | sdk/python/tests/golden_vectors.json:2-10 | the CRCs of the empty string and of "hello" are those of the vectors both implementations share |
| `Frame.DecodeOfEncode` | sdk/python/src/usmp/_frame.py:42-106 | decoding an encoded frame gives it back, whatever follows, except for a wrong version or unknown type, which get their own errors |
| `Frame.EncodeOfDecode` | sdk/python/src/usmp/_frame.py:42-106 | encoding what was decoded gives the bytes back exactly when the string has the declared size and a right CRC field |
| `Frame.BurstRejected` | core/src/usmp_frame.c:64-89 | a frame hit by one burst of at most sixteen bits in its covered bytes is never accepted |
| `CrcParity.OddErrorsRejected` | core/src/usmp_frame.c:64-89 | a frame with an odd number of flipped bits in its covered bytes is never accepted |
| `Vectors.WireLayout` | sdk/python/src/usmp/_frame.py:42-57 | where every byte of a frame lies: magic CD AB, version, type, then sequence, length and CRC lowest byte first, then the payload |
| `Frame.StreamRoundTrip` | sdk/python/src/usmp/_frame.py:109-126 | reading a concatenation of encoded frames returns those frames, then what the remaining bytes hold |
| `Frame.SerializeHeader` | core/src/usmp_frame.c:25-38 | the ten header bytes are written little-endian and nothing else in the buffer changes |
| `Frame.ComputeCrc` | core/src/usmp_frame.c:40-47 | the CRC is that of header and payload together |
| `Frame.BuildPacket` | core/src/usmp_frame.c:49-62 | the buffer starts with the frame's wire form and is otherwise untouched |
| `Frame.PacketBuffer.Parse` | core/src/usmp_frame.c:64-89 | the C parser, reading field by field into its packet, succeeds exactly on the strings the Python decoder takes or refuses only for their type byte, and then holds their fields and payload |
| `TcpReader.TcpSocket.TakeTurn` | ports/usmp-esp32/transport/usmp_transport_tcp.c:89-137 | one turn moves exactly the chunk the socket has ready, cut off at the goal, and ends the call exactly on a stall, a failure or the peer's end |
| `TcpReader.TcpSocket.Recv` | ports/usmp-esp32/transport/usmp_transport_tcp.c:79-187 | result and consumption are those of `Call`, and what was consumed is at the front of the buffer, the rest untouched |
| `TcpReader.CallMeaning` | ports/usmp-esp32/transport/usmp_transport_tcp.c:79-187 | a positive result is one whole frame; 0 means that no byte has been consumed |
| `TcpReader.CallReturnsFrame` | ports/usmp-esp32/transport/usmp_transport_tcp.c:79-187 | with the frame on the stream and nothing ending the call, it returns exactly when the chunks supply the frame, and otherwise is still waiting |
| `TcpReader.CallBreaksOff` | ports/usmp-esp32/transport/usmp_transport_tcp.c:79-187 | a failure, the peer's end or two seconds without progress before the frame is complete fails the call, except that lateness before the first byte returns 0 and consumes nothing |
| `TcpReader.OversizedFails` | ports/usmp-esp32/transport/usmp_transport_tcp.c:138-141 | a header that announces more than a frame or the buffer may hold fails the call |
| `TcpReader.CallsReturnFramesOnly` | ports/usmp-esp32/transport/usmp_transport_tcp.c:79-187 | whatever the chunking, stalls and failures, what the calls return are the stream's frames, one each, in order |
| `TcpReader.CallsReturnFrames` | ports/usmp-esp32/transport/usmp_transport_tcp.c:79-187 | when each call's chunks supply its frame and nothing ends a call, successive calls on a concatenation of frames return exactly those frames, in any chunking |
| `ReplayWindow.FreshMeaning` | sdk/python/src/usmp/_session.py:121-129 | a frame passes the window exactly when it is new and less than 64 behind |
| `ReplayWindow.UnsignedAndSignedAgree` | core/src/usmp_session.c:259-276 | the wrapping C test and the signed Python test decide alike on every 32-bit input |
| `ReplayWindow.RecordMeaning` | core/src/usmp_session.c:348-361 | after the update the bitmap and highest sequence stand for the accepted set with the new one added |
| `ReplayWindow.WindowSimulatesSet` | sdk/python/src/usmp/_session.py:121-177 | over any arrivals the window accepts what the set of accepted sequences would |
| `ReplayWindow.NoReplay` | sdk/python/src/usmp/_session.py:121-177 | in an epoch no sequence is ever accepted twice |
| `SymbolicKeys.RekeyKeepsCrossed` | sdk/python/src/usmp/_crypto.py:68-92 | initiator and responder derive crossed keys from crossed keys |
| `SymbolicKeys.RekeyAgreesExactly` | sdk/python/src/usmp/_crypto.py:68-92 | initiator and responder agree after a rekey exactly if they held crossed keys and used the same salt and session id |
| `SymbolicKeys.RekeyGrows` | core/src/usmp_session.c:16-50 | both derived keys are larger terms than the keys they come from, and differ from each other |
| `SessionSend.NonceUniqueness` | sdk/python/src/usmp/_session.py:225-364 | in every interleaving of sends, pings, pongs, byes and rekeys, with writes that succeed, fail or are cancelled, no two frames share key and nonce |
| `SessionSend.MessageAtomicity` | sdk/python/src/usmp/_session.py:82-104 | in every undisturbed interleaving the wire is a concatenation of whole messages, in the order the lock was taken |
| `SessionSend.EstablishedIsWhole` | sdk/python/src/usmp/_session.py:47-73 | a new session satisfies the invariant that message atomicity starts from |
| `SessionSend.ShortOfSequencesCutsMessage` | sdk/python/src/usmp/_session.py:338-364 | a message begun with some but too few sequence numbers left is always cut on the wire |
| `SessionSend.FailedWriteCutsMessage` | sdk/python/src/usmp/_session.py:90-104 | a failed write inside a message leaves its fragments dangling |
| `SessionSend.ReceivedRekeyCutsMessage` | sdk/python/src/usmp/_session.py:225-243 | after a REKEY received inside a message the peer cannot join the rest on |
| `SendProgress.MessageIsSent` | sdk/python/src/usmp/_session.py:82-104 | a task that finds the lock free, with enough sequences and writes that return, sends exactly the frames of its message under the next sequences and frees the lock, whatever other tasks try meanwhile |
| `SendProgress.ControlIsSent` | sdk/python/src/usmp/_session.py:286-288 | likewise a PING or a PONG is one empty frame |
| `SendProgress.RekeyIsSent` | sdk/python/src/usmp/_session.py:290-311 | a rekey sends its salt under the old key and leaves the keys of a peer that follows, from sequence 0 |
| `SendProgress.ReceivedRekeyFollows` | sdk/python/src/usmp/_session.py:225-243 | a rekey received at any moment leaves the sender with keys crossed with the initiator's, from sequence 0 |
| `SendProgress.ByeIsSent` | sdk/python/src/usmp/_session.py:313-328 | a `bye()` sends one BYE, even under the reserved last sequence |
| `SendProgress.SpentSendsNothing` | sdk/python/src/usmp/_session.py:338-364 | with the sequences spent the lock is freed and nothing but a BYE goes out |
| `Vectors.NonceLayout` | sdk/python/src/usmp/_session.py:347-347 | the nonce is the sequence, lowest byte first, and the first eight bytes of the session id |
| `RekeySync.RekeySynchronisation` | sdk/python/src/usmp/_session.py:225-311 | however many rekeys either side starts, with old and new frames queued around them, nothing is refused and keys and sequences stay matched |
| `RekeySync.FreshLinkIsSynced` | sdk/python/src/usmp/_session.py:47-73 | a link fresh from the handshake is matched |
| `RekeySync.FrameAgainstRekeyIsRefused` | core/src/usmp_session.c:411-432 | a frame sent while a REKEY is on its way to the sender is always refused |
| `RekeySync.RekeyAgainstFramesIsRefused` | core/src/usmp_session.c:503-536 | a rekey started while the peer's frames are in flight makes the initiator refuse the first of them |
| `RekeyLink.PythonReceives` | sdk/python/src/usmp/_session.py:117-264 | over a stream `recv` takes a frame exactly when the link's end does, and is then that end |
| `RekeyLink.PythonSends` | sdk/python/src/usmp/_session.py:290-364 | the lock holder writes what the link's end writes, and either kind of rekey leaves the sender as that end |
| `RekeyLink.CoreReceives` | core/src/usmp_session.c:213-477 | over a stream `usmp_recv` takes a frame that fits exactly when the link's end does, and the context is then that end |
| `RekeyLink.CoreSends` | core/src/usmp_session.c:89-148 | `emit_frame` and `usmp_rekey` write and become what the link's end does |
| `SessionReceive.Session.AdmitFrame` | sdk/python/src/usmp/_session.py:117-193 | window test, decryption, overflow guard and sequence bookkeeping give the specified admission and state |
| `SessionReceive.Session.DispatchFrame` | sdk/python/src/usmp/_session.py:195-276 | the frame-type dispatch gives the specified local variables, state and outcome |
| `SessionReceive.Session.Recv` | sdk/python/src/usmp/_session.py:106-284 | a call returns, raises or waits as the loop specification says, having used that many events |
| `RecvCalls.CallsAreRecvs` | sdk/python/src/usmp/_session.py:106-284 | the calls of the theorems over many calls are `recv` calls, each started where the last one returned or raised |
| `RecvFilter.TakenBySet` | sdk/python/src/usmp/_session.py:121-177 | over any events and any number of `recv` calls on datagrams, between key changes, the frames taken are those of a filter that remembers every sequence: new, authentic, less than 64 behind |
| `RecvFilter.TakenOnce` | sdk/python/src/usmp/_session.py:121-177 | between key changes no sequence is taken twice over any number of calls, or again |
| `RecvFilter.FilteredHasNoEffect` | sdk/python/src/usmp/_session.py:121-177 | over a whole life with rekeys, the calls return, raise and leave what they would if nothing malformed, forged, repeated or old had come |
| `RecvFilter.StreamTakesInTurn` | sdk/python/src/usmp/_session.py:144-193 | over a stream, if no call raises, every event was an authentic frame, numbered without a gap from the expected one |
| `RecvLimits.ByeEndsTheCall` | sdk/python/src/usmp/_session.py:159-203 | a BYE in its turn makes the call report that the peer closed, or an overflow under the reserved sequence |
| `RecvLimits.FloodEndsTheCall` | sdk/python/src/usmp/_session.py:204-224 | control frames beyond eight before more than a second has passed make the call raise |
| `RecvLimits.BrokenMessage` | sdk/python/src/usmp/_session.py:205-276 | a frame that may not come now raises on a stream; on datagrams what was assembled is dropped and the call reads on |
| `RecvLimits.UnansweredPing` | sdk/python/src/usmp/_session.py:209-210 | a PING that cannot be answered makes the call raise |
| `RecvLimits.LocalRekeyFollows` | sdk/python/src/usmp/_session.py:290-311 | after a rekey by this process the session expects the first frame of a peer that has followed |
| `Reassembly.ReassemblySafety` | sdk/python/src/usmp/_session.py:195-276 | every payload returned is one to four authenticated frames of one epoch with consecutive sequences, all DATA_FRAG but a final DATA |
| `Reassembly.StreamNeedsNoCare` | sdk/python/src/usmp/_session.py:290-311 | over a stream a call that returns a payload had no local rekey inside the message |
| `Reassembly.RekeyInsideDatagramsSplices` | sdk/python/src/usmp/_session.py:290-311 | on datagrams a local rekey inside a message always leaves room for a payload from two epochs |
| `RoundTrip.SendRecvRoundTrip` | sdk/python/src/usmp/_session.py:82-264 | any list of messages of at most 1808 bytes, with control frames and rekeys between them, is received as that list; the sequences accepted are the sender's in turn, from 0 again after each REKEY; every ping is answered |
| `RoundTrip.EightAreWithinBudget` | sdk/python/src/usmp/_session.py:204-224 | eight control frames are within a call's budget whatever the clock says |
| `EndToEnd.ConcurrentSendsAreReceived` | sdk/python/src/usmp/_session.py:82-364 | any undisturbed interleaving of sends, pings and rekeys, its frames delivered in order, is received by successive calls of `recv` as the messages sent, in lock order, with nothing left over |
| `UdpArq.ExactlyOnceInOrder` | sdk/python/src/usmp/transport/udp.py:101-258 | over a lossy, duplicating, reordering network and while no drain was given up before its frame came, the accepted frames are a prefix of those sent; a returned drain's frame is in the peer's buffer |
| `UdpArq.GivenUpFrameIsSkipped` | sdk/python/src/usmp/transport/udp.py:218-258 | in every reachable state after a drain given up before its frame came, while the frame is missing, some continuation accepts a later frame without it |
| `UdpStream.Stream.FeedPacket` | sdk/python/src/usmp/transport/udp.py:101-190 | exactly the admissible datagrams enter the buffer, whole; acknowledgements go out and are taken exactly when they should be; the buffer stays within 4096 bytes |
| `UdpExchange.Exchange` | sdk/python/src/usmp/transport/udp.py:89-126 | the peer's answer to a frame counts at the writer exactly if it is for the frame's type and sequence and, from the session frames on, the peer's receive key is the writer's transmit key |
| `UdpExchange.HandshakeArrivals` | sdk/python/src/usmp/transport/udp.py:149-190 | of handshake frames retransmitted and duplicated at will each is handed on once, when first it comes, never one behind another, and every datagram is acknowledged |
| `UdpExchange.FeedIsArqFeed` | sdk/python/src/usmp/transport/udp.py:101-190 | a session frame that arrives does to the stream what the ARQ machine's step does, and is acknowledged exactly when there |
| `UdpExchange.ReadIsArqTake` | sdk/python/src/usmp/transport/udp.py:192-205 | reading the next frame, and confirming it if the window takes it, is the ARQ machine's step |
| `UdpStream.Stream.HandshakeFrameTwice` | sdk/python/src/usmp/transport/udp.py:149-190 | a new handshake frame and its retransmission are acknowledged in the end, but the frame is delivered exactly if the buffer had room when it first came |
| `UdpStream.Stream.Write` | sdk/python/src/usmp/transport/udp.py:207-216 | the frame and the acknowledgement it waits for are remembered, unless the stream is closed |
| `UdpStream.Stream.Drain` | sdk/python/src/usmp/transport/udp.py:218-258 | the same bytes go out once per attempt not acknowledged within its timeout, waits double within their limits, it fails exactly after five, only a first attempt is measured |
| `UdpStream.WaitsDouble` | sdk/python/src/usmp/transport/udp.py:229-244 | the timer stays between 0.1 and 5 s, and the waits start at it and double up to five seconds |
| `UdpStream.Stream.ConfirmAuthenticated` | sdk/python/src/usmp/transport/udp.py:192-194 | the duplicate filter's mark becomes the highest authenticated sequence |
| `UdpStream.Stream.ReadExactly` | sdk/python/src/usmp/transport/udp.py:196-205 | the first bytes leave the buffer and the rest stay |
| `UdpStream.Stream.ReadFrame` | sdk/python/src/usmp/_frame.py:109-126 | one call consumes exactly one datagram even when it raises, so every read starts at a boundary |
| `Rto.UpdateKeepsClose` | core/tests/usmp_transport_posix.c:333-350 | one measured round trip keeps the machine state within its distance of the exact filter |
| `Rto.Accuracy` | core/tests/usmp_transport_posix.c:333-350 | for any number of bounded samples nothing wraps, SRTT stays in the hull and at least 1, and SRTT, RTTVAR and RTO are within 7, 10 and 47 ms of section 2.3 of RFC 6298 |
| `Rto.RunAccuracy` | core/tests/usmp_transport_posix.c:272-365 | over any run of the transport, with no assumption on the round trips, nothing wraps and the timer keeps those distances from the exact filter |
| `Rto.RunTimersAgree` | core/tests/usmp_transport_posix.c:272-365 | on any run the timer is within 47 ms of the one the Python transport would have |
| `Rto.SecondsAreExact` | sdk/python/src/usmp/transport/udp.py:239-244 | the Python update in seconds is the exact filter |
| `Rto.TimersAgree` | sdk/python/src/usmp/transport/udp.py:239-244 | on the same round trips the two implementations' timers differ by at most 47 ms |
| `Rto.BackoffDoubles` | core/tests/usmp_transport_posix.c:294-299 | the waits start at the timer's value and double up to five seconds |
| `Rto.Sender.AwaitAck` | core/tests/usmp_transport_posix.c:302-358 | the inner loop ends with silence, an acknowledgement and its time, or a socket error, as its polls decide |
| `Rto.AckedInTime` | core/tests/usmp_transport_posix.c:302-358 | an acknowledgement that counts is within the attempt's own timeout, but for the delay of one poll |
| `Rto.AttemptMeaning` | core/tests/usmp_transport_posix.c:302-358 | an attempt is acknowledged, or breaks, at the first poll in time that brings an acknowledgement or an error, and stays unanswered otherwise |
| `Rto.Sender.Send` | core/tests/usmp_transport_posix.c:272-365 | the frame goes out at most five times, each after silence; it succeeds exactly on an acknowledgement; only a first attempt is measured |
| `Rto.Sender.MeasureRoundTrip` | core/tests/usmp_transport_posix.c:333-350 | the statements compute the machine update |
| `Handshake.TranscriptInjective` | core/src/usmp_handshake.c:78-111 | the transcript determines type, nonce, id and both public keys, whatever the width of the id |
| `Handshake.ExchangeCommutes` | sdk/python/src/usmp/_crypto.py:25-65 | both ends of an exchange of honest public keys compute the same secret |
| `Handshake.ServerAgreement` | sdk/python/src/usmp/_handshake.py:191-234 | a server that accepts HELLO_ACK under a key the attacker lacks has exactly one client run with the same nonce, device and public keys, and crossed keys |
| `Handshake.ClientAgreement` | sdk/python/src/usmp/_handshake.py:291-372 | a client that accepts SESSION_OK under such a key has exactly one server run with the same nonce, session id, public keys and device, and crossed keys |
| `Handshake.CrossedMeansSameExchange` | sdk/python/src/usmp/_crypto.py:25-65 | two runs hold crossed keys exactly when they saw the same nonce and public keys, compromised or not |
| `Handshake.CompromisedKeyForges` | sdk/python/src/usmp/_handshake.py:191-234 | with a pre-shared key in hand the attacker completes a session without any client |
| `HandshakeKeys.KeysBelong` | sdk/python/src/usmp/_handshake.py:138-170 | in every run a server past HELLO uses the device's own key, the default only for a device without one, the single key, or what the function gives; no key is short and no secret zero |
| `HandshakeKeys.UnregisteredIsRefused` | sdk/python/src/usmp/_handshake.py:138-151 | a device is refused as not registered, without an answer, exactly if there is no key for it |
| `HandshakeKeys.DefaultKeyIsNotEnough` | sdk/python/src/usmp/_handshake.py:138-234 | a server that accepts a registered device was answered by a client run that holds that device's key; no other matches |
| `HandshakeKeys.OnlyExpectedFrames` | sdk/python/src/usmp/_handshake.py:126-372 | a waiting run goes on only at the frame type and size it waits for; at anything else it fails, and a failed run never goes on |
| `HandshakeRoutines.ClientHandshake` | sdk/python/src/usmp/_handshake.py:266-372 | the client routine sends, returns and fails as its role does, frame by frame |
| `HandshakeRoutines.ServerHandshake` | sdk/python/src/usmp/_handshake.py:117-234 | the server routine sends, returns and fails as its role does, frame by frame |
| `HandshakeRoutines.GuardedServerHandshake` | sdk/python/src/usmp/_handshake.py:83-251 | a locked-out address is refused before anything is read, success clears its record, every failure is recorded |
| `HandshakeRoutines.UndisturbedRun` | sdk/python/src/usmp/_handshake.py:83-372 | with one key at both ends and nothing lost both parties finish, with or without a cookie, holding crossed keys and one session id |
| `CoreHandshake.ComputeTranscriptHmac` | core/src/usmp_handshake.c:89-111 | the parts fit the fixed buffer and what is authenticated is the transcript |
| `CoreHandshake.Context.Handshake` | core/src/usmp_handshake.c:122-446 | the C client makes the same exchange; the session is established with its keys exactly on success and the keys are zero after any failure past the first check |
| `CoreTransmit.SendMeaning` | core/src/usmp_session.c:165-211 | once the sequence check has passed, the message's frames go out in order up to the first transport failure; the guard inside `emit_frame` cannot fire |
| `CoreTransmit.TransmittedMeaning` | core/src/usmp_session.c:188-208 | what is transmitted is a prefix of the frames, all but the last accepted by the transport |
| `CoreTransmit.EmitKeepsTxOk` | core/src/usmp_session.c:89-148 | one transmission keeps the discipline and drops the session exactly when it fails |
| `CoreReceive.RecvMeaning` | core/src/usmp_session.c:213-477 | every call reads the transport at most ten times; a positive result is the length of one complete message's concatenated plaintexts, whose frames were delivered in this call, in order, each authenticated when it was read |
| `CoreReceive.NoteMeaning` | core/src/usmp_session.c:259-361 | a frame that passes the C window is new and less than 64 behind, and the context goes on standing for the accepted set |
| `CoreFilter.CallsAreRecvs` | core/src/usmp_session.c:213-477 | the calls of the theorems below are `usmp_recv` calls, each started where the last one ended |
| `CoreFilter.TakenBySet` | core/src/usmp_session.c:259-361 | over any number of `usmp_recv` calls on datagrams, between key changes, the frames with any effect are those of a filter that remembers every sequence: authentic, well placed, new, less than 64 behind |
| `CoreFilter.TakenOnce` | core/src/usmp_session.c:259-361 | between key changes no frame has an effect twice |
| `CoreFilter.StreamTakesInTurn` | core/src/usmp_session.c:245-377 | over a stream, if no call fails, every answer was an authentic frame, numbered without a gap |
| `CoreFilter.EarlyEnds` | core/src/usmp_session.c:379-475 | a BYE or an unsendable PONG ends the session; the ninth control frame, a bad salt, a fragment out of order and a fourth fragment fail the call |
| `CoreRoundTrip.ListRoundTrip` | core/src/usmp_session.c:213-477 | for any list of messages with pings, pongs and rekeys between them, within the budgets, successive calls return that list, each ping is answered, and keys and both sequences agree throughout, restarting together at each REKEY |
| `CoreRoundTrip.ListSent` | core/src/usmp_session.c:165-211 | the sender's calls put exactly the frames of that list on the wire |
| `CoreLifecycle.OpensExactlyWhen` | core/src/usmp_connect.c:27-137 | a session is opened exactly when the transport serves and the handshake agrees |
| `CoreLifecycle.OpenedIsInStep` | core/src/usmp_connect.c:61-70 | after a successful connect or reconnect the context sends under the agreed key from 0 and expects the first frame of whoever holds the keys the other way round |
| `CoreLifecycle.OpenedConversation` | core/src/usmp_connect.c:27-137 | two contexts that open with the two sides of one agreement: what one sends from then on the other receives |
| `CoreLifecycle.DeviceAndServerTalk` | core/src/usmp_connect.c:27-137 | a C device and a Python session made of one handshake receive each other's first message |
| `CoreLifecycle.FirstTick` | core/src/usmp_connect.c:74-74 | a tick before the interval has passed since the connect sends nothing; after it, one PING |
| `CoreLifecycle.TickAfterEmit` | core/src/usmp_session.c:89-148 | likewise since any transmission |
| `CoreLifecycle.AfterClose` | core/src/usmp_connect.c:139-154 | after a close nothing can be sent or received, the keys are zero, and the last frame is one BYE if a session was up |
| `CoreTransmit.TickMeaning` | core/src/usmp_session.c:492-501 | the keepalive pings exactly when the interval has passed, across a wrap of the 32-bit clock too |
| `CoreTransmit.FailedReconnectSends` | core/src/usmp_connect.c:82-137 | after a reconnect that reports failure a send transmits exactly if there was no hook and the session was established, and then everything under the all-zero key |
| `Interop.SameFrames` | sdk/python/src/usmp/_session.py:82-104 | `send` and `usmp_send` cut a message into the same sealed frames |
| `Interop.DeviceToServer` | core/src/usmp_session.c:165-211 | what `usmp_send` transmits, delivered in order, is what the Python `recv` returns, over streams and datagrams |
| `Interop.ServerToDevice` | core/src/usmp_session.c:213-477 | what the Python `send` writes, delivered in order, is what `usmp_recv` puts into a large enough buffer |
| `CoreSession.TransmitDiscipline` | core/src/usmp_session.c:89-211 | over any run of calls and transport behaviours the sequences strictly increase under one key below 0xFFFFFFFF, and nothing is sent after a failed transmission before a new handshake |
| `CoreSession.HooklessReconnectRepeats` | core/src/usmp_connect.c:82-92 | without the hook, rekeys bring the same all-zero key and sequence back |
| `CoreSession.Context.EmitFrame` | core/src/usmp_session.c:89-148 | the sequence is burned before the transport is asked, and the session is dropped if it refuses |
| `CoreSession.Context.Send` | core/src/usmp_session.c:165-211 | the fragment loop has the specified effect and status |
| `CoreSession.Context.Tick` | core/src/usmp_session.c:492-501 | the call has the effect and status whose meaning `TickMeaning` states |
| `CoreSession.Context.RotateKeys` | core/src/usmp_session.c:503-544 | the keys rotate exactly when the REKEY went out |
| `CoreSession.Context.Recv` | core/src/usmp_session.c:213-477 | at most ten reads, nothing written outside the caller's buffer, and a positive result counts, at its start, one complete message among the frames read |
| `CoreSession.Context.ScreenFrame` | core/src/usmp_session.c:247-326 | everything decided before decryption: window, frame type, destination and length |
| `CoreSession.Context.Decrypt` | core/src/usmp_session.c:328-346 | decryption writes only the plaintext's place and succeeds exactly for a matching key, sequence, session and header |
| `CoreSession.Context.NoteSequence` | core/src/usmp_session.c:348-377 | the sequence bookkeeping of an authenticated frame on datagrams and streams |
| `CoreSession.Context.Connect` | core/src/usmp_connect.c:27-80 | a transport without send or recv is refused; otherwise everything but key material from the caller and the keepalive interval is cleared, then the handshake's result is installed |
| `CoreSession.Context.Reconnect` | core/src/usmp_connect.c:82-137 | the keys are wiped first; a session comes back only through a new handshake |
| `CoreSession.Context.Close` | core/src/usmp_connect.c:139-154 | a courtesy BYE if established, then an unestablished session with zero keys |
| `CookieLimiter.Limiter.AllowUdpCookie` | sdk/python/src/usmp/_server.py:125-156 | the object's whole life is a run of the limiter, hard eviction of the oldest included, and its table stays within 1000 entries |
| `CookieLimiter.AllowMeaning` | sdk/python/src/usmp/_server.py:125-156 | a request is decided by its address's level alone, costs one token if allowed, and moves no other level |
| `CookieLimiter.PruningIsInvisible` | sdk/python/src/usmp/_server.py:141-156 | in any run, an address not hard-evicted so far is decided as by a limiter that keeps every entry |
| `CookieLimiter.WindowBound` | sdk/python/src/usmp/_server.py:125-156 | in any window of T seconds of any run an address is admitted at most 10 + 5T times, and ten more for each hard eviction of its entry in the window |
| `CookieLimiter.SpacedRequestsPass` | sdk/python/src/usmp/_server.py:125-156 | in any run an address's first request, and any at least 0.2 s after its last, is admitted |
| `CookieLimiter.NeverEvictsSpares` | sdk/python/src/usmp/_server.py:150-154 | while hard eviction never fires no address loses its entry to it |
| `CookieEviction.EvictionRefills` | sdk/python/src/usmp/_server.py:125-156 | a run in which hard eviction lets one address through twenty times in 0.02 s |
| `HandshakeBackoff.Failures.RecordFailure` | sdk/python/src/usmp/_handshake.py:33-63 | the table is the specified one and stays within 1000 entries, one of the oldest making room |
| `HandshakeBackoff.RecordMeaning` | sdk/python/src/usmp/_handshake.py:33-63 | an address is blocked from its fifth failure on, for the specified time; another's entry survives exactly when it has not expired and did not make room |
| `HandshakeBackoff.BackoffIsCapped` | sdk/python/src/usmp/_handshake.py:42-48 | the lock-out doubles from one second and is sixty from the eleventh failure on |
| `HandshakeBackoff.AloneEscalates` | sdk/python/src/usmp/_handshake.py:33-63 | failures of one address alone escalate whatever the pauses, up to the 1028th |
| `HandshakeBackoff.BlockedAfterFailure` | sdk/python/src/usmp/_handshake.py:42-48 | when exactly a failure leaves its address blocked, the unrecordable ones included |
| `HandshakeBackoff.OthersReset` | sdk/python/src/usmp/_handshake.py:56-63 | another address's failure after a lock-out is over resets the count |
| `ConnAccounting.CountsAreConserved` | sdk/python/src/usmp/_server.py:175-322 | in every interleaving the TCP counts are the live connections per address and in all, the handshake counts the live handshakes, at most three per address, and all limits hold |
| `ConnAccounting.NothingLeaks` | sdk/python/src/usmp/_server.py:302-322 | when every connection has been torn down every table is empty |
| `ConnAccounting.OnlyItsOwnTeardown` | sdk/python/src/usmp/_server.py:302-322 | a session leaves the table only by its own teardown or for a newer one from its address |
| `ConnAccounting.Accounts.TotalConnections` | sdk/python/src/usmp/_server.py:177-178 | the sum over the counter is the number of live connections |
| `ConnAccounting.Accounts.OnTcpConnect` | sdk/python/src/usmp/_server.py:175-206 | a connection is admitted exactly when the live connections, in all and of its address, are below their limits, and is then counted |
| `ConnAccounting.Accounts.OnTcpFinish` | sdk/python/src/usmp/_server.py:306-311 | the connection's count is given back and an empty entry dropped |
| `ConnAccounting.Accounts.OnHello` | sdk/python/src/usmp/transport/udp.py:400-474 | a handshake starts exactly when permitted, none is live at its address, fewer than three are for its host and fewer than twice the limit in all |
| `ConnAccounting.Accounts.OnHandshakeDone` | sdk/python/src/usmp/_server.py:218-257 | the handshake's count is given back; the session replaces an older one from its address or is refused and torn down |
| `ConnAccounting.Accounts.OnUdpFinish` | sdk/python/src/usmp/_server.py:312-322 | teardown gives back what is still counted and removes only this stream's entries |

## Left out

- Cryptographic primitives: AEAD, HKDF, HMAC and X25519 are symbolic; a failure of the library itself (an encryption that fails in `emit_frame`, a random source that fails) is not modelled.
- Zeroisation of buffers has no functional content, except where keys become all zero.
- Sockets, DNS, asyncio, threads, server start-up and shutdown, signal handling and logging.
- Secrecy of the session keys: the attacker has no terms for private keys, so only agreement is proved.
- Message delivery across a rekey over UDP, and against forged frames: the transport's duplicate filter is not reset by a rekey, and acknowledges before authentication.
- `recv` timeouts in the middle of a message: a cancelled call simply takes no further event.
- EndToEnd.ConcurrentSendsAreReceived: no BYE and no rekey by the peer during the run; both are covered separately, by nonce uniqueness and rekey synchronisation.
- CoreRoundTrip.ListRoundTrip: the receiver's own transmissions succeed; what a failed one does is the transmit discipline's matter.
- HandshakeRoutines.GuardedServerHandshake: transport errors other than a closed connection end the run without being recorded and are not modelled; a key function that returns no key is treated as an unknown device.
- Handshake.Step: a transport write that fails ends the run where it stands; in the model such a run takes no further step.
- CoreSession.TransmitDiscipline: keys of different handshakes are not compared, since their freshness is a matter of the handshake.
- CoreLifecycle.OpensExactlyWhen: every handshake that fails is reported alike; the code's own statuses are in `CoreHandshake.Context.Handshake`.
- UdpStream.Stream.Drain: when its acknowledgement event is set is an input; that `feed_packet` sets it is modelled in the ARQ, not here.
- ConnAccounting.CountsAreConserved: listener shutdown, which clears the UDP tables at once, is not an event.
- The ESP32 and Arduino UDP transports, and the Arduino TCP transport, repeat loops modelled here.
