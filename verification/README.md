# A verified model of the Sponge TCP/IP stack

Sponge is a user-space TCP/IP stack: a TCP endpoint built in layers, an Ethernet interface with ARP
address resolution, an IPv4 router, and the wire formats between them. This project models that stack in
Dafny, as it stands in `cs144-lab6` (wire formats and published states from `cs144-lab5`, the checksum from
`cs144-lab4`, the simple form of `bytes_in_flight` from `cs144-lab3`), and proves what it promises, or
exactly when it keeps that promise. `dafny verify dfyconfig.toml` checks everything.

## How it is built

Each component comes in two forms. A datatype with one function for each operation says, as a value, what
the component's fields become. A class with the source's fields and loops performs the operations in place,
and each of its methods ensures that `View()`, the value of the object, is the function of `old(View())`.
The theorems are about the values, so they hold of the objects. A proof that does not need a definition hides it.

| files | contents |
|---|---|
| `WrappingIntegers`, `ByteStream`, `StreamReassembler` | sequence numbers, the bounded FIFO, reassembly |
| `TcpSegment`, `TcpReceiver`, `TcpReceiverRuns`, `TcpSender`, `SenderOutcomes`, `TcpSenderRuns`, `TcpState` | the two halves of an endpoint, what filling sends, runs of each, the state a sender publishes |
| `TcpConnection`, `ConnectionInvariants`, `ConnectionClose`, `ConnectionReplies`, `ConnectionResets`, `ConnectionGiveUp` | the endpoint, what every call keeps, closing, answering, resets, giving up |
| `EndToEnd`, `DeliveredBytes` | two endpoints and a network that loses, duplicates, delays and reorders; which bytes are handed over in any run |
| `Listening`, `Handshake`, `Conversation` | silence before the start; runs that establish a connection, exchange any two streams and close it |
| `CloseDelivers`, `FallingSilent` | what a clean close says about both ends; two idle ends |
| `WrongBytes`, `ForgedWindow` | two runs in which wrong bytes are handed over |
| `Lingering`, `ZeroWindow`, `UnansweredSyn`, `WindowRetreat` | ten timeouts of lingering; runs against a closed window, without an answer, and with a window that shrinks |
| `NetParser`, `InternetChecksum`, `TcpCodec`, `Ipv4`, `TcpOverIp` | numbers, checksums, headers, segments and datagrams as bytes, segments in datagrams |
| `NetworkInterface`, `AddressResolution`, `AddressLifetimes`, `Router`, `RouterRuns` | ARP, its timing and lifetimes, longest-prefix match, forwarding, and runs of a router |

The chain of the main argument: `StreamReassemblers.PushKnown` says what one substring adds;
`TcpReceivers.ReceivedFaithfulIff` which honest segments keep the receiver a faithful picture of the peer's
stream; `TcpSenders.FillKeeps`, `AckKeeps` and `TickKeeps` that every segment a sender keeps or
queues is the piece of the stream that belongs at its number; `ConnectionInvariants.PerformAdvances` lifts
this to every call on a connection; and `EndToEnd` composes two connections over an arbitrary network.
`DeliveredBytes.PrefixKeptIff` says, for every run of that network, when the bytes handed over are a prefix of
the peer's stream; `Conversations.ConversationCompletes` that whole streams do arrive.
`TcpSegments.Carries` is the meaning of a segment that both ends share.

## What the code does that its documentation does not promise

* The inbound stream can end with bytes missing. An empty FIN that is taken in tells the reassembler that it
  has seen the end, wherever it stands; from then on the stream ends as soon as nothing is held back, with the
  FIN itself or with a later data segment (`EndsEarlyIff`, `HeldByteEndsEarly`).
* More can be acknowledged than was taken in. A FIN that misses the window, or does not fit it, is noted and not
  taken in, so that the stream never ends (`MissedFinNeverEnds`, `MissedFinIff`); it is counted all the same
  whenever the number is recomputed with nothing held back (`OvercountsIff`,
  `MissedFinAcknowledgesMissingByte`). An empty FIN that ends the stream early has the same effect later
  (`EarlyFinAcknowledgesMissingByte`).
* These are the only two ways in which an honest segment can lead a faithful receiver astray
  (`ReceivedFaithfulIff`), step by step and over whole runs, of one receiver (`EndsShortIff`, `OvercountedIff`) and of two endpoints
  (`NeverFaultyIff`). FINs in order are enough to exclude both (`FinInOrderIff`, `InOrderRunIsGood`).
* Once a stream has ended early, or a FIN has been counted that was not taken in, the reassembler's next index
  need not be the number of bytes written, and wrong bytes can be handed over. Over every run the network can
  bring about, the bytes handed over stay a prefix of the peer's stream if and only if each delivery hands over
  what belongs behind those written so far (`PrefixKeptIff`; `PushPlacedIff` for one push), as it does whenever
  the two numbers agree (`AlignedIsInPlace`). Two runs in which it does not, both after a forged
  acknowledgement has made the sender run past the receiver's window: in one the first two bytes are handed
  over twice (`BytesHandedOverTwice`), in the other three bytes are skipped, though no stream has ended
  (`BytesSkipped`).
* The acknowledgement number goes back when the FIN that it counts is not counted any more, because bytes are
  held back again, and never otherwise (`NumberGoesBackIff`, `NumberGoesBack`).
* The acknowledgement number is not refreshed when a segment is cut short at the window's edge. Without early
  ends and overcounting, that is the only way in which it lags (`AckStaysExactIff`, `AlwaysExactIff`).
* The reassembler computes the room for a substring without sign. A substring past the right edge is stored
  whole (`EdgeRespectedIff`).
* The window left to the sender is computed without sign too. If an acknowledgement, such as a late one
  with a smaller window, puts the window's right edge behind what has been sent, the next filling sends the
  whole stream (`FillRespectsWindowIff`, `StaleWindowOverruns`, and the run in `RetreatingWindowIsOverrun`).
* `unwrap` returns the number nearest to the checkpoint for every 32-bit number exactly when the checkpoint
  is at most 2^63 (`AlwaysNearestIff`); for one number, `NearestIff` gives the condition.
* `TCPSegment::parse` and `IPv4Datagram::parse` drop the header parser's verdict: a TCP data offset below
  five is accepted (`TcpCodec.ParseAcceptsIff`), and so is a wrong IPv4 header checksum
  (`ChecksumIsNotEnforced`); `Ipv4.ParseAcceptsIff` says what is accepted, text by text.
* A header length or data offset above fifteen words, or a fragment offset above thirteen bits, is written
  without its high bits (`HeaderRoundTripIff`, `DatagramRoundTripIff`). A datagram without options comes
  back even if its total length is wrong.
* An end that closes first with a retransmission timeout of zero does not wait for the peer: it closes on the
  peer's FIN without acknowledging it. `ConversationCompletes` is about timeouts above zero.
* A peer that keeps its window closed is probed for ever: no probe counts as a retransmission, so the connection is
  never given up, however often the peer stays silent (`ProbesForEver`).
* A segment that reaches over both ends of the window is found useless: only its first and its last number are
  looked at (`VerdictIff`).
* Bytes that come with the peer's SYN are dropped, and with two or more the SYN itself goes unacknowledged
  (`SynOutcome`; the drain loop looks at an empty map there, see "Left out").
* A datagram for a next hop that is already being resolved is dropped (`SendOutcome`), and a hop that changes its
  hardware address is not believed before the old one has run out (`LearntServes`).
* The test `begin() == end()` after an insertion in `tcp_sender.cc:161` is never true, so a new segment
  does not restart the timer's current interval; the model leaves that statement without effect.

## Model

Paths are relative to the root of the repository.

| member | source | states |
|---|---|---|
| `WrappingIntegers.WrapOfUnwrap` | cs144-lab6/libsponge/wrapping_integers.cc:32-39 | What `unwrap` returns wraps back to the number, for every checkpoint |
| `WrappingIntegers.NearestIff` | cs144-lab6/libsponge/wrapping_integers.cc:32-39 | The result is the nearest 64-bit number that wraps to `n`, if and only if the signed candidate stays in range: the exact condition for each number and checkpoint |
| `WrappingIntegers.AlwaysNearestIff` | cs144-lab6/libsponge/wrapping_integers.cc:25-39 | A checkpoint serves every 32-bit number with its nearest representative if and only if it is at most 2^63 |
| `WrappingIntegers.UnwrapOfWrap` | cs144-lab6/libsponge/wrapping_integers.cc:16-39 | Round trip: a number less than 2^31 from a checkpoint up to 2^63 survives the 32-bit wire |
| `ByteStreams.StreamIsFifo` | cs144-lab6/libsponge/byte_stream.cc:21-66 | Over every run of writes, reads, ends and errors: what was handed out followed by what is buffered is what was accepted, in order; the counters are the lengths of the two; the capacity is never exceeded |
| `ByteStreams.ByteStream.Write` | cs144-lab6/libsponge/byte_stream.cc:21-33 | Appends the longest prefix that fits and returns its length |
| `ByteStreams.ByteStream.PeekOutput` | cs144-lab6/libsponge/byte_stream.cc:36-43 | The first bytes of the buffer, as many as asked for and there |
| `ByteStreams.ByteStream.PopOutput` | cs144-lab6/libsponge/byte_stream.cc:46-55 | Removes those bytes and counts them as read |
| `ByteStreams.ByteStream.Read` | cs144-lab6/libsponge/byte_stream.cc:60-66 | Peek and pop in one |
| `StreamReassemblers.PushKnown` | cs144-lab6/libsponge/stream_reassembler.cc:26-59 | What one push adds: at every index the byte already known, else the byte the substring offers inside the window; when the end is noted; when the stream ends |
| `StreamReassemblers.StoreMeaning` | cs144-lab6/libsponge/stream_reassembler.cc:35-42 | The storing loop keeps every byte that is there and adds the offered ones, and no other index |
| `StreamReassemblers.DrainOneKeepsKnown` | cs144-lab6/libsponge/stream_reassembler.cc:45-49 | Every single-byte write of the drain loop is accepted in full |
| `StreamReassemblers.DrainKeepsKnown` | cs144-lab6/libsponge/stream_reassembler.cc:44-49 | Draining moves bytes to the stream, loses none, and stops at the first gap |
| `StreamReassemblers.CapacityRespected` | cs144-lab6/libsponge/stream_reassembler.cc:29-49 | Buffered and held bytes together never exceed the capacity; held indices lie strictly between the next index and the right edge |
| `StreamReassemblers.EdgeRespectedIff` | cs144-lab6/libsponge/stream_reassembler.cc:29-33 | A push keeps the held indices below the right edge if and only if it carries nothing or starts at or before the edge |
| `StreamReassemblers.EmptyLastPushEndsIff` | cs144-lab6/libsponge/stream_reassembler.cc:51-57 | An empty last push ends the stream if and only if nothing is held back, wherever it claims to be |
| `StreamReassemblers.RunMeansEarliestBytes` | cs144-lab6/libsponge/stream_reassembler.cc:26-59 | Over every run of in-window pushes and reads before the end, each index is known with the byte of the earliest push that offered one |
| `StreamReassemblers.FirstGap` | cs144-lab6/libsponge/stream_reassembler.cc:26-61 | `bytes_written` is the smallest index never offered, and the held map is exactly the offered indices above it |
| `StreamReassemblers.OrderIndependence` | cs144-lab6/libsponge/stream_reassembler.cc:26-59 | Two runs over excerpts of one stream that covered the same indices have assembled and hold the same bytes, whatever the order, overlap and duplication |
| `StreamReassemblers.StreamReassembler.PushSubstring` | cs144-lab6/libsponge/stream_reassembler.cc:26-59 | The object does what the function says, in the source's unsigned arithmetic |
| `StreamReassemblers.StreamReassembler.StoreLoop` | cs144-lab6/libsponge/stream_reassembler.cc:35-42 | The `for` loop of `push_substring` |
| `StreamReassemblers.StreamReassembler.DrainLoop` | cs144-lab6/libsponge/stream_reassembler.cc:44-49 | The `while` loop of `push_substring`, reading the least key of a non-empty map |
| `StreamReassemblers.StreamReassembler.UnassembledBytes` | cs144-lab6/libsponge/stream_reassembler.cc:61 | The number of held bytes |
| `TcpReceivers.ReceivedFaithfulIff` | cs144-lab6/libsponge/tcp_receiver.cc:13-63 | An honest segment within 2^31, in any order and any number of times, leaves the receiver faithful, that is, all it knows is the peer's stream, it has ended only with all of it and it acknowledges only what it has taken in, if and only if the segment neither ends the stream early nor overcounts |
| `TcpReceivers.EndsIff` | cs144-lab6/libsponge/tcp_receiver.cc:41-50 | The stream ends with a segment if and only if a FIN has been, or is being, taken in whole and the segment leaves no gap |
| `TcpReceivers.EndsEarlyIff` | cs144-lab6/libsponge/tcp_receiver.cc:41-50 | It ends with bytes missing if and only if, besides, its last byte has not come: by an empty FIN, or by a later segment that fills the last gap |
| `TcpReceivers.OvercountsIff` | cs144-lab6/libsponge/tcp_receiver.cc:52-57 | More is acknowledged than was taken in if and only if a FIN is noted that was not taken in, the segment leaves no gap, and its payload is written out |
| `TcpReceivers.ReceivedAdvances` | cs144-lab6/libsponge/tcp_receiver.cc:13-63 | At a faithful receiver, bytes written, the absolute acknowledgement number and the end of the stream never go back |
| `TcpReceivers.NumberGoesBackIff` | cs144-lab6/libsponge/tcp_receiver.cc:52-57 | At every receiver, faithful or not, the number stays at most one past the bytes written and a noted FIN; and it goes back if and only if it counts the FIN, the segment adds no byte, and bytes are held back when it is recomputed |
| `TcpReceivers.FaithfulIsPrefix` | cs144-lab6/libsponge/tcp_receiver.cc:13-63 | A faithful receiver has delivered and buffered a prefix of the peer's stream; all of it once the stream has ended |
| `TcpReceivers.EndedIff` | cs144-lab6/libsponge/tcp_receiver.cc:46-57 | For a faithful receiver, the stream has ended if and only if a FIN was taken in whole and every byte is written |
| `TcpReceivers.ReadFaithful` | cs144-lab6/libsponge/tcp_receiver.cc:73-76 | Reading by the application, which opens the window, changes nothing the receiver knows |
| `TcpReceivers.FinInOrderIff` | cs144-lab6/libsponge/tcp_receiver.cc:41-50 | An honest FIN is taken in with the last byte of the stream known, after which nothing can go wrong, if and only if it is in order: in the window, whole, and with the last byte in it or already here |
| `TcpReceivers.InOrderIsSafe` | cs144-lab6/libsponge/tcp_receiver.cc:41-57 | A receiver whose FIN came in order never ends early and never overcounts |
| `TcpReceivers.MissedFinNeverEnds` | cs144-lab6/libsponge/tcp_receiver.cc:26-57 | A receiver that has noted a FIN it did not take in never ends the stream, whatever arrives |
| `TcpReceivers.MissedFinIff` | cs144-lab6/libsponge/tcp_receiver.cc:41-47 | That is what becomes of an honest FIN if and only if it misses the window or does not fit it |
| `TcpReceivers.AckStaysExactIff` | cs144-lab6/libsponge/tcp_receiver.cc:52-57 | An exact acknowledgement number, 1 + bytes written + 1 if ended, stays exact if and only if the segment is not cut short at the window's edge, does not overcount, and is not an empty FIN that ends the stream early |
| `TcpReceivers.VerdictIff` | cs144-lab6/libsponge/tcp_receiver.cc:26-62 | Once the SYN is in, a segment is found of use if and only if it brings the first FIN, or its first or last sequence number lies in the window, of which a closed window still has one number; never if it repeats the SYN |
| `TcpReceivers.FirstVerdictIff` | cs144-lab6/libsponge/tcp_receiver.cc:13-25 | Before the SYN, if and only if it is the SYN |
| `TcpReceivers.SynOutcome` | cs144-lab6/libsponge/tcp_receiver.cc:13-62 | What a fresh receiver makes of a SYN, field by field: bytes on it are dropped, and with two or more it is not acknowledged; a FIN on it ends the stream without them |
| `TcpReceiverRuns.EndsShortIff` | cs144-lab6/libsponge/tcp_receiver.cc:13-63 | Over every run of honest segments and reads, the stream is seen to have ended with bytes missing if and only if some segment ended it early |
| `TcpReceiverRuns.OvercountedIff` | cs144-lab6/libsponge/tcp_receiver.cc:52-57 | Over every such run whose stream does not end short, more is acknowledged than was taken in if and only if some segment overcounted |
| `TcpReceiverRuns.AlwaysExactIff` | cs144-lab6/libsponge/tcp_receiver.cc:52-57 | and the acknowledgement number is exact at every moment if and only if no segment overcounted and none was cut short |
| `TcpReceiverRuns.InOrderRun` | cs144-lab6/libsponge/tcp_receiver.cc:41-57 | Runs whose FINs arrive in order are free of both faults |
| `TcpReceiverRuns.InOrderExactIff` | cs144-lab6/libsponge/tcp_receiver.cc:52-57 | and from a fresh receiver on, their number is exact throughout if and only if no segment is cut short |
| `TcpReceiverRuns.EarlyFinAcknowledgesMissingByte` | cs144-lab6/libsponge/tcp_receiver.cc:41-57 | Three honest segments after which the stream has ended with one byte of two, and both are acknowledged |
| `TcpReceiverRuns.MissedFinAcknowledgesMissingByte` | cs144-lab6/libsponge/tcp_receiver.cc:41-57 | Three honest segments after which one byte of three is there, two are acknowledged and the stream has not ended |
| `TcpReceiverRuns.HeldByteEndsEarly` | cs144-lab6/libsponge/tcp_receiver.cc:41-50 | Four honest segments of which the last, a data segment, ends the stream with two bytes of four |
| `WrongBytes.NumberGoesBack` | cs144-lab6/libsponge/tcp_receiver.cc:52-57 | A segment that takes the number from five back to four |
| `WrongBytes.TwiceHandedOver` | cs144-lab6/libsponge/stream_reassembler.cc:44-57 | Four segments of one stream and a read after which the receiver has handed over bytes 0, 1, 0, 1 |
| `WrongBytes.SkippedBytes` | cs144-lab6/libsponge/stream_reassembler.cc:29-49 | Six segments of one stream and two reads after which it has handed over bytes 0 to 3, 7 and 8, and has not ended |
| `TcpReceivers.TCPReceiver.SegmentReceived` | cs144-lab6/libsponge/tcp_receiver.cc:13-63 | The object does what the function says, including its verdict on the segment |
| `TcpReceivers.TCPReceiver.TestWindow` | cs144-lab6/libsponge/tcp_receiver.cc:29-42 | Where the segment lies and whether it falls in the window |
| `TcpReceivers.TCPReceiver.FinishSegment` | cs144-lab6/libsponge/tcp_receiver.cc:46-57 | The FIN flag, the checkpoint and the acknowledgement number after reassembly |
| `TcpReceivers.TCPReceiver.Ackno` | cs144-lab6/libsponge/tcp_receiver.cc:65-71 | The acknowledgement number, once a SYN has been seen |
| `TcpReceivers.TCPReceiver.WindowSize` | cs144-lab6/libsponge/tcp_receiver.cc:73-76 | The free space of the inbound stream |
| `TcpSenders.FlightIsSum` | cs144-lab3/libsponge/tcp_sender.cc:37-43 | The cached counter equals the recomputed sum over the outstanding segments, and is zero if and only if there are none, if and only if everything is acknowledged |
| `TcpSenders.TilesSum` | cs144-lab3/libsponge/tcp_sender.cc:37-43 | The sum over a gap-free run of segments is the distance between its ends |
| `TcpSenders.TilesCover` | cs144-lab6/libsponge/tcp_sender.cc:153-163 | Every sequence number in flight lies in an outstanding segment |
| `TcpSenders.FillLoopKeeps` | cs144-lab6/libsponge/tcp_sender.cc:61-79 | The filling loop keeps the structure of the outstanding map, the counters, the ledger `next = syn + bytes read + fin`, and sends each byte in its place |
| `TcpSenders.FillKeeps` | cs144-lab6/libsponge/tcp_sender.cc:48-81 | So does filling the window, whatever it starts from; the sender only moves forward |
| `SenderOutcomes.FillOutcome` | cs144-lab6/libsponge/tcp_sender.cc:48-81 | What filling the window sends, for every sender: before the SYN nothing but the SYN, and that only if asked for; behind the FIN nothing; in between exactly min(buffered, room) bytes, cut into segments of 1452 bytes of which the last may be shorter, and the FIN if the stream ends there and one more number fits |
| `TcpSenders.PopAckedExactly` | cs144-lab6/libsponge/tcp_sender.cc:96-108 | The discarding loop removes exactly the segments acknowledged in full, through the unwrapping of their stored numbers |
| `TcpSenders.AckRemovesExactly` | cs144-lab6/libsponge/tcp_sender.cc:86-118 | An acknowledgement, whatever is still queued: which numbers are acceptable, what is taken over, which segments go, that the others stay as they were and only new data is added |
| `TcpSenders.AckKeeps` | cs144-lab6/libsponge/tcp_sender.cc:86-118 | An acknowledgement with any number and window, whatever is still queued, keeps every invariant of the sender |
| `SenderOutcomes.AckTimer` | cs144-lab6/libsponge/tcp_sender.cc:86-116 | A number that is not new changes nothing but the window; a new one restarts the timer, with the initial interval and no retransmission counted if and only if it acknowledges some segment in full |
| `TcpSenders.TickKeeps` | cs144-lab6/libsponge/tcp_sender.cc:121-140 | A tick keeps every invariant of the sender, among them `_retransmit_timeout == initial * 2^count` |
| `TcpSenders.TickRetransmits` | cs144-lab6/libsponge/tcp_sender.cc:121-140 | A retransmission is the oldest outstanding segment, unchanged, and happens exactly when the timer runs out |
| `TcpSenders.TickOutcome` | cs144-lab6/libsponge/tcp_sender.cc:121-140 | What a tick leaves of the timer, field by field: with the peer's window open the interval doubles and the retransmission counts; with a closed window neither changes, and the timer starts again with the same interval |
| `TcpSenders.WriteKeeps` | cs144-lab6/libsponge/tcp_sender.cc:66-67 | Bytes written to the stream extend what the sender will send and touch nothing sent |
| `TcpSenders.EmptyKeeps` | cs144-lab6/libsponge/tcp_sender.cc:146-150 | An empty segment is queued at the next number and not kept |
| `TcpSenders.TCPSender.SendSegments` | cs144-lab6/libsponge/tcp_sender.cc:153-163 | Numbers, keeps, counts and queues a segment |
| `TcpSenders.TCPSender.SendEmptySegment` | cs144-lab6/libsponge/tcp_sender.cc:146-150 | Queues an empty segment |
| `TcpSenders.TCPSender.FillWindow` | cs144-lab6/libsponge/tcp_sender.cc:48-81 | The object does what the function says; the loop ends because each turn that goes on takes bytes |
| `TcpSenders.TCPSender.SendNext` | cs144-lab6/libsponge/tcp_sender.cc:64-78 | The body of the filling loop |
| `TcpSenders.TCPSender.AckReceived` | cs144-lab6/libsponge/tcp_sender.cc:86-118 | The object does what the function says, including the verdict |
| `TcpSenders.TCPSender.DiscardAcked` | cs144-lab6/libsponge/tcp_sender.cc:96-108 | The discarding loop |
| `TcpSenders.TCPSender.Tick` | cs144-lab6/libsponge/tcp_sender.cc:121-140 | The object does what the function says |
| `TcpSenderRuns.RunKeeps` | cs144-lab6/libsponge/tcp_sender.cc:48-163 | In every reachable state of a sender the outstanding map, the counter, the timer, the ledger and the contents of every segment agree |
| `TcpSenderRuns.FillRespectsWindowIff` | cs144-lab6/libsponge/tcp_sender.cc:61-79 | Filling stays within the peer's window if and only if its right edge is not behind what was sent; then it ends with the window exactly full, the stream empty or the FIN sent; otherwise it empties the stream |
| `TcpSenderRuns.AckFlowIff` | cs144-lab6/libsponge/tcp_sender.cc:86-118 | After an acknowledgement, whatever is still queued, the sender is within the window if and only if it did not leave the window's edge behind what was sent |
| `TcpSenderRuns.WithinWindowIff` | cs144-lab6/libsponge/tcp_sender.cc:61-118 | Over every run, what is in flight, FIN included, never exceeds max(window, 1) if and only if no acknowledgement leaves the edge behind |
| `TcpSenderRuns.StaleWindowOverruns` | cs144-lab6/libsponge/tcp_sender.cc:63-92 | Every acknowledgement that advances nothing and announces too small a window breaks flow control, and the next filling drains the stream |
| `TcpSenderRuns.RetransmissionTiming` | cs144-lab6/libsponge/tcp_sender.cc:121-140 | Over every run without progress: the n-th counted retransmission is no sooner than initial * (2^n - 1) after arming, and with an open window at most one tick late each |
| `TcpSenderRuns.GiveUpTiming` | cs144-lab6/libsponge/tcp_sender.cc:121-142 | More than eight counted retransmissions take at least 511 initial timeouts, and with an open window they have happened after 511 initial timeouts plus eight of the longest ticks (RFC 6298, section 5) |
| `TcpConnections.TCPConnection.SegmentReceived` | cs144-lab6/libsponge/tcp_connection.cc:26-138 | The object does what the function says: the handshake, reset and keep-alive rules, acknowledgement, reassembly, close and reply |
| `TcpConnections.TCPConnection.SiftSegment` | cs144-lab6/libsponge/tcp_connection.cc:32-84 | The early returns: the handshake states and resets |
| `TcpConnections.TCPConnection.ProcessSegment` | cs144-lab6/libsponge/tcp_connection.cc:86-137 | What happens to a segment that passes them |
| `TcpConnections.TCPConnection.TakeSegment` | cs144-lab6/libsponge/tcp_connection.cc:86-116 | Keep-alive test, acknowledgement, reassembly, and whether a reply is called for |
| `TcpConnections.TCPConnection.SendReply` | cs144-lab6/libsponge/tcp_connection.cc:126-137 | An empty segment if a reply is called for and nothing else is queued, then a push |
| `TcpConnections.TCPConnection.PushSegmentsOut` | cs144-lab6/libsponge/tcp_connection.cc:224-246 | Fills the window and moves the queue out, each segment stamped, the first one with RST if one is due |
| `TcpConnections.TCPConnection.DrainQueue` | cs144-lab6/libsponge/tcp_connection.cc:230-244 | The moving loop |
| `TcpConnections.TCPConnection.Connect` | cs144-lab6/libsponge/tcp_connection.cc:175-181 | Activates and sends the SYN |
| `TcpConnections.TCPConnection.UncleanShutdown` | cs144-lab6/libsponge/tcp_connection.cc:195-206 | Fails both streams, deactivates, and sends a RST if asked to |
| `TcpConnections.TCPConnection.CleanShutdown` | cs144-lab6/libsponge/tcp_connection.cc:209-221 | When lingering ends, when the connection becomes inactive |
| `TcpConnections.TCPConnection.Write` | cs144-lab6/libsponge/tcp_connection.cc:142-150 | Writes, fills and pushes |
| `TcpConnections.TCPConnection.EndInputStream` | cs144-lab6/libsponge/tcp_connection.cc:167-172 | Ends the stream and pushes |
| `TcpConnections.TCPConnection.Tick` | cs144-lab6/libsponge/tcp_connection.cc:153-165 | Passes time, gives up after too many retransmissions, pushes, closes |
| `ConnectionInvariants.PerformAdvances` | cs144-lab6/libsponge/tcp_connection.cc:26-246 | Every call on a connection, with any arguments, keeps its sender sound, its stream and its segments truthful, and only moves forward |
| `ConnectionInvariants.PerformUnhurried` | cs144-lab6/libsponge/tcp_connection.cc:26-246 | No call but a tick lets the retransmission timer run |
| `ConnectionInvariants.DrainedIs` | cs144-lab6/libsponge/tcp_connection.cc:230-244 | The moving loop in closed form: every queued segment once, in order, stamped with the current acknowledgement, the RST on the first alone |
| `ConnectionResets.StatesIff` | cs144-lab6/libsponge/tcp_connection.cc:250-265 | The three tests for LISTEN, SYN_SENT and SYN_RECEIVED, which look at the oldest outstanding segment, in terms of the counters |
| `ConnectionResets.ResetOutcome` | cs144-lab6/libsponge/tcp_connection.cc:26-68 | What every active connection makes of a RST: unless it comes with a SYN at a listener, or reaches SYN_SENT without an acknowledgement or with data, both streams are failed, the connection is inactive, and nothing is sent; in the latter cases nothing changes but the clock |
| `ConnectionResets.DroppedOutcome` | cs144-lab6/libsponge/tcp_connection.cc:46-84 | What the handshake states drop, and that nothing changes by it but the clock |
| `ConnectionResets.FailedIff` | cs144-lab6/libsponge/tcp_connection.cc:26-206 | Over every run of calls with arbitrary segments, each of the two streams is marked as failed if and only if some RST counted, or a tick gave up |
| `Lingering.CloseOutcome` | cs144-lab6/libsponge/tcp_connection.cc:209-221 | The closing rule in the fields, from every connection: when lingering is called off, and when the connection is over |
| `Lingering.OverAfterTick` | cs144-lab6/libsponge/tcp_connection.cc:153-221 | With both streams over and nothing in flight, one tick ends the connection unless it lingers and fewer than ten timeouts have passed since the last segment |
| `Lingering.LingersTenTimeouts` | cs144-lab6/libsponge/tcp_connection.cc:209-221 | From every such state and over any ticks and reads: the connection is inactive if and only if it need not linger or ten timeouts have passed, however the ticks fall |
| `ZeroWindow.ProbesForEver` | cs144-lab6/libsponge/tcp_sender.cc:121-140 | Over every run of calls without new acknowledgements in which each tick finds the peer's window closed, the interval and the count of retransmissions never move, and the connection stays active |
| `EndToEnd.RunIsSafe` | cs144-lab6/libsponge/tcp_connection.cc:26-246 | Over every run of two connections and an arbitrary network without a harmful delivery, each packet is a piece of its sender's stream and each receiver is faithful to it |
| `EndToEnd.NeverFaultyIff` | cs144-lab6/libsponge/tcp_receiver.cc:41-57 | Over every run the network can bring about, a stream is seen to have ended with bytes missing, or more to have been acknowledged than was taken in, if and only if some delivery ended a stream early or overcounted |
| `EndToEnd.InOrderRunIsGood` | cs144-lab6/libsponge/tcp_receiver.cc:41-57 | A run whose FINs are delivered in order has no such delivery |
| `EndToEnd.PrefixSafety` | cs144-lab6/libsponge/tcp_receiver.cc:13-63 | End-to-end prefix safety in both directions: what was read and is buffered is a prefix of what the peer's application wrote, even if acknowledgement fields are forged, in runs without a harmful delivery; an ended stream has all the bytes taken. The exact condition is that of `PrefixKeptIff` |
| `EndToEnd.RunIsLossless` | cs144-lab6/libsponge/tcp_connection.cc:224-246 | Over every run without forgery and without a harmful delivery, every acknowledgement, under way or taken in, is covered by what its sender has |
| `DeliveredBytes.DrainWrites` | cs144-lab6/libsponge/stream_reassembler.cc:44-49 | Draining, in whatever state, hands on the stretch of the stream from the next index, as long as the run of held bytes and the room allow |
| `DeliveredBytes.HandedIff` | cs144-lab6/libsponge/stream_reassembler.cc:35-49 | A push hands anything on if and only if it carries bytes, the next byte is held once they are stored, and there is room |
| `DeliveredBytes.PushPlacedIff` | cs144-lab6/libsponge/stream_reassembler.cc:26-59 | An honest push, in whatever state, keeps what was written a prefix of the stream if and only if what it hands on belongs behind it |
| `DeliveredBytes.AlignedIsInPlace` | cs144-lab6/libsponge/stream_reassembler.cc:44-49 | As it does whenever the next index is the number of bytes written |
| `DeliveredBytes.ReceivedPlacedIff` | cs144-lab6/libsponge/tcp_receiver.cc:13-63 | The same of an honest segment and a receiver in whatever state; what is held back stays true |
| `DeliveredBytes.RunIsHonest` | cs144-lab6/libsponge/tcp_connection.cc:26-246 | Over every run the network can bring about, with harmful deliveries and forged acknowledgements, packets are pieces of their sender's stream and what is held back is true of it |
| `DeliveredBytes.PrefixKeptIff` | cs144-lab6/libsponge/tcp_receiver.cc:13-63 | Over every such run, what was read and is buffered is at every moment a prefix of what the peer's application wrote, in both directions, if and only if each delivery hands over its bytes in place |
| `DeliveredBytes.GoodRunIsInPlace` | cs144-lab6/libsponge/tcp_receiver.cc:13-63 | In a run without a harmful delivery, each does |
| `ForgedWindows.ForgedRunHears` | cs144-lab6/libsponge/tcp_connection.cc:26-246 | After the handshake and a forged window, whatever one end writes and in whatever order the other hears of it, what the other makes of it is what its receiver makes of the segments |
| `ForgedWindows.BytesHandedOverTwice` | cs144-lab6/libsponge/tcp_receiver.cc:13-63 | A run of two endpoints in which 7, 8, 9 is written and 7, 8, 7, 8 handed over |
| `ForgedWindows.BytesSkipped` | cs144-lab6/libsponge/tcp_receiver.cc:13-63 | A run in which nine bytes are written, and the first four and the last two handed over; no stream ends |
| `EndToEnd.NoLoss` | cs144-lab6/libsponge/tcp_sender.cc:86-118 | End-to-end no-loss in both directions: every byte a sender has taken is in order at the peer or still in the outstanding segment that covers its number |
| `EndToEnd.AllAckedIsDelivered` | cs144-lab6/libsponge/tcp_sender.cc:110-114 | With nothing in flight, the peer has every byte taken, and its stream has ended if the FIN was sent |
| `ConnectionClose.FillLeavesNoLooseEnd` | cs144-lab6/libsponge/tcp_sender.cc:63-79 | After filling, with the SYN sent, the stream at its end and the FIN not sent, something is still in flight |
| `ConnectionClose.RunKeepsOrder` | cs144-lab6/libsponge/tcp_connection.cc:153-221 | Over every sequence of calls, no loose end, honest closing and the linger clock are kept |
| `ConnectionClose.CleanCloseIsHonest` | cs144-lab6/libsponge/tcp_connection.cc:209-221 | An inactive connection without a stream error has seen the end of the peer's stream, sent its FIN and had everything through it acknowledged; if it had to linger, ten timeouts passed since the last segment (RFC 793, section 3.5) |
| `ConnectionReplies.SequenceSpaceIsAcknowledged` | cs144-lab6/libsponge/tcp_connection.cc:87-137 | Once the peer's SYN is in, or with it, every segment that occupies sequence space, passes the early returns and leaves the connection active is answered, by segments that all carry the current acknowledgement and window |
| `ConnectionReplies.BareAckGetsNoEmptyReply` | cs144-lab6/libsponge/tcp_connection.cc:87-137 | A bare ACK at the expected number for something sent never causes an empty reply |
| `ConnectionReplies.IdleEndpointStaysSilent` | cs144-lab6/libsponge/tcp_connection.cc:87-137 | An idle endpoint lets a bare ACK go unanswered |
| `ConnectionReplies.KeepAliveIsAnswered` | cs144-lab6/libsponge/tcp_connection.cc:86-89 | A keep-alive probe is answered |
| `ConnectionReplies.EmptyIsAnsweredIff` | cs144-lab6/libsponge/tcp_connection.cc:86-137 | An endpoint with nothing to send answers an empty segment if and only if it lies outside the window or acknowledges what was never sent; with the current acknowledgement |
| `FallingSilent.RestingTurn` | cs144-lab6/libsponge/tcp_connection.cc:87-137 | With both ends of the two-endpoint system idle and everything acknowledged, any packet that is delivered draws at most one, a last acknowledgement, and a last acknowledgement, a tick or a read draws none; both ends go on resting |
| `FallingSilent.FallsSilent` | cs144-lab6/libsponge/tcp_connection.cc:87-137 | So over every run of such turns, no more packets are added than packets other than last acknowledgements were delivered: two idle endpoints never exchange acknowledgements forever |
| `FallingSilent.LastAcksDrawNone` | cs144-lab6/libsponge/tcp_connection.cc:87-137 | In particular none, however often the last acknowledgements are delivered |
| `FallingSilent.HandshakeEndsResting` | cs144-lab6/libsponge/tcp_connection.cc:26-138 | The handshake leads to such a state |
| `CloseDelivers.CleanCloseDelivers` | cs144-lab6/libsponge/tcp_connection.cc:209-221 | In a run of the two-endpoint system without forgery or harmful delivery, an endpoint inactive without an error has its whole stream at the peer and the peer's whole stream here |
| `ConnectionGiveUp.RunKeepsWaiting` | cs144-lab6/libsponge/tcp_connection.cc:153-165 | The timing bounds hold over every run of calls on a connection without acknowledged progress |
| `ConnectionGiveUp.GivesUpInTime` | cs144-lab6/libsponge/tcp_connection.cc:153-165 | Such a connection is inactive once 511 initial timeouts and eight of the longest ticks have passed with an open window, and does not count nine retransmissions before 511 initial timeouts |
| `ConnectionGiveUp.GivingUpSendsReset` | cs144-lab6/libsponge/tcp_connection.cc:153-206 | Giving up deactivates, fails both streams and sends a RST |
| `ConnectionGiveUp.AbortsBetween` | cs144-lab6/libsponge/tcp_connection.cc:153-206 | In a run of calls without acknowledged progress, the tick that gives up sends a RST and comes no earlier than 511 initial timeouts; with an open window it begins before 511 initial timeouts and eight of the longest ticks, by which time the connection has given up |
| `Handshake.PassiveOpen` | cs144-lab6/libsponge/tcp_connection.cc:32-43 | A fresh connection answers a SYN with its own SYN, acknowledging the peer's |
| `Listening.SilentUntilOpened` | cs144-lab6/libsponge/tcp_connection.cc:26-181 | Over every run of calls without connecting, writing something or receiving a SYN, nothing is ever sent |
| `Listening.OpeningSendsSyn` | cs144-lab6/libsponge/tcp_connection.cc:32-43 | and each of these sends the SYN first, with the acknowledgement of the peer's if that has come |
| `Handshake.ActiveOpen` | cs144-lab6/libsponge/tcp_connection.cc:45-59 | A connection that has sent its SYN answers the peer's SYN and acknowledgement with one empty acknowledgement, and is established |
| `Handshake.LastAckArrives` | cs144-lab6/libsponge/tcp_connection.cc:70-84 | That acknowledgement establishes the other end, and is not answered |
| `Handshake.HandshakeEstablishes` | cs144-lab6/libsponge/tcp_connection.cc:26-246 | For any two fresh endpoints the four turns of the handshake are an allowed run of the two-endpoint system and establish the connection at both ends |
| `Conversations.WriteSends` | cs144-lab6/libsponge/tcp_sender.cc:61-79 | Bytes that fit the window and one segment go out at once, in one segment |
| `Conversations.BusyIsAcknowledged` | cs144-lab6/libsponge/tcp_sender.cc:86-118 | The acknowledgement of the one segment in flight, bytes or FIN, leaves nothing in flight and sends nothing |
| `Conversations.PushAtNext` | cs144-lab6/libsponge/stream_reassembler.cc:26-59 | A substring at the next index, with nothing held back: as much as there is room for is written, and nothing held |
| `Conversations.Heeds` | cs144-lab6/libsponge/tcp_connection.cc:86-137 | What an endpoint with nothing in flight makes of a segment from a peer that has heard all it said: its receiver takes it in, and it sends one acknowledgement, or nothing |
| `Conversations.LinesArrive` | cs144-lab6/libsponge/tcp_connection.cc:26-246 | After the handshake, with every packet delivered in turn, every line that either end writes is read at the other, in order, whoever speaks when |
| `Conversations.LastAckCloses` | cs144-lab6/libsponge/tcp_connection.cc:209-221 | The end that closes second is inactive, without an error, with the acknowledgement of its FIN |
| `Conversations.LingeringEnds` | cs144-lab6/libsponge/tcp_connection.cc:209-221 | The end that closes first is inactive, without an error, after ten timeouts of silence |
| `Conversations.ConversationCompletes` | cs144-lab6/libsponge/tcp_connection.cc:26-246 | From two fresh endpoints, with every packet delivered in turn and timeouts above zero: whatever lines that fit the two applications write, both streams are read whole, both ends see them end, and both close without an error |
| `Conversations.EveryStreamArrives` | cs144-lab6/libsponge/tcp_connection.cc:26-246 | So for any two streams there is a run of the network that exchanges them whole and closes both ends |
| `UnansweredSyn.GivesUpOnSilence` | cs144-lab6/libsponge/tcp_connection.cc:153-206 | A SYN that nobody answers: the connection is active while fewer than 511 initial timeouts have passed and inactive once 511 initial timeouts and eight of the longest ticks have passed, however the ticks fall |
| `WindowRetreat.RetreatingWindowIsOverrun` | cs144-lab6/libsponge/tcp_sender.cc:61-92 | A run, for every sender with room for three bytes, after which three bytes are in flight against a window of one |
| `TcpStates.SummaryAgrees` | cs144-lab5/libsponge/tcp_helpers/tcp_state.cc:94-110 | The summary, computed from counters, agrees with the hidden flags and outstanding segments, each state in both directions |
| `TcpStates.PublishedStateAdvances` | cs144-lab5/libsponge/tcp_helpers/tcp_state.cc:94-110 | Over every run without writes after the end, the published state never goes back, and the FIN states are published exactly when the FIN was sent |
| `NetParsers.BigEndianOfUnparse` | cs144-lab5/libsponge/util/parser.cc:26-60 | Writing then reading a number of the given width gives it back |
| `NetParsers.UnparseOfBigEndian` | cs144-lab5/libsponge/util/parser.cc:26-60 | Reading then writing gives the bytes back |
| `NetParsers.UnparsedByte` | cs144-lab5/libsponge/util/parser.cc:53-60 | The byte a shift and a mask select is the byte of the big-endian form |
| `NetParsers.UnparseInt` | cs144-lab5/libsponge/util/parser.cc:53-60 | The writing loop appends the big-endian form |
| `NetParsers.ReadPastEnd` | cs144-lab5/libsponge/util/parser.cc:20-43 | Reading or skipping past the end gives zero, moves nothing and leaves the error |
| `NetParsers.ReadAfterError` | cs144-lab5/libsponge/util/parser.cc:26-43 | and after an error nothing is read any more |
| `NetParsers.NetParser.ParseInt` | cs144-lab5/libsponge/util/parser.cc:26-43 | The reading loop yields the number and advances, or fails and stays |
| `NetParsers.NetParser.RemovePrefix` | cs144-lab5/libsponge/util/parser.cc:45-51 | Skips bytes, or fails and stays |
| `InternetChecksums.AddConcat` | cs144-lab4/libsponge/util/util.cc:89-98 | Adding in pieces is adding the concatenation, parity included |
| `InternetChecksums.AddIsWordSum` | cs144-lab4/libsponge/util/util.cc:89-98 | The accumulator is the sum of the 16-bit words, in 32 bits |
| `InternetChecksums.FoldModulo` | cs144-lab4/libsponge/util/util.cc:100-107 | Folding keeps the value modulo 2^16 - 1, and only zero folds to zero |
| `InternetChecksums.VerifiesIff` | cs144-lab4/libsponge/util/util.cc:100-108 | A text verifies if and only if its sum is a positive multiple of 2^16 - 1 |
| `InternetChecksums.FilledTextVerifiesIff` | cs144-lab4/libsponge/util/util.cc:77-108 | Filling the value into a zero field makes the text verify if and only if the 32-bit sum does not overflow (RFC 1071, section 1) |
| `InternetChecksums.InternetChecksum.Add` | cs144-lab4/libsponge/util/util.cc:89-98 | The adding loop |
| `InternetChecksums.InternetChecksum.Value` | cs144-lab4/libsponge/util/util.cc:100-108 | The folding loop |
| `TcpCodec.HeaderRoundTrip` | cs144-lab5/libsponge/tcp_helpers/tcp_header.cc:17-78 | A header that was written is read back, options skipped, whatever follows |
| `TcpCodec.HeaderRoundTripIff` | cs144-lab5/libsponge/tcp_helpers/tcp_header.cc:17-78 | A header is read back if and only if its data offset fits four bits |
| `TcpCodec.SegmentRoundTripIff` | cs144-lab5/libsponge/tcp_helpers/tcp_segment.cc:12-45 | A serialised segment verifies and comes back, same fields, same payload, if and only if the checksum's sum does not overflow |
| `TcpCodec.SegmentRoundTrip` | cs144-lab5/libsponge/tcp_helpers/tcp_segment.cc:12-45 | Every segment that fits a datagram makes the round trip |
| `TcpCodec.ParseAcceptsIff` | cs144-lab5/libsponge/tcp_helpers/tcp_segment.cc:12-23 | What the parser accepts: a verifying text with a whole header whose announced options are there, or whose data offset is below the minimum |
| `TcpCodec.FieldsParsed` | cs144-lab5/libsponge/tcp_helpers/tcp_header.cc:17-48 | Every field is read off its place in the first twenty bytes (RFC 793, section 3.1) |
| `TcpCodec.SerializedLayout` | cs144-lab5/libsponge/tcp_helpers/tcp_header.cc:51-78 | and written to its place |
| `TcpCodec.ParseTcpHeader` | cs144-lab5/libsponge/tcp_helpers/tcp_header.cc:17-48 | Field by field, options skipped |
| `TcpCodec.SerializeTcpHeader` | cs144-lab5/libsponge/tcp_helpers/tcp_header.cc:51-78 | Field by field, padded to the announced length; refused below the minimum |
| `TcpCodec.ParseTcpSegment` | cs144-lab5/libsponge/tcp_helpers/tcp_segment.cc:12-23 | Checksum, header, payload |
| `TcpCodec.SerializeTcpSegment` | cs144-lab5/libsponge/tcp_helpers/tcp_segment.cc:30-45 | Checksum over header and payload, filled in |
| `Ipv4.DatagramRoundTrip` | cs144-lab5/libsponge/tcp_helpers/ipv4_datagram.cc:12-43 | A well-sized datagram comes back but for the checksum, which now verifies |
| `Ipv4.DatagramRoundTripIff` | cs144-lab5/libsponge/tcp_helpers/ipv4_datagram.cc:12-43 | A datagram that can be written comes back if and only if header length and offset fit their bits and the total length is right or there are no options |
| `Ipv4.ChecksumIsNotEnforced` | cs144-lab5/libsponge/tcp_helpers/ipv4_datagram.cc:12-22 | The datagram parser accepts whatever the header checksum is, though the header parser reports it |
| `Ipv4.ParseAcceptsIff` | cs144-lab5/libsponge/tcp_helpers/ipv4_datagram.cc:12-22 | What the datagram parser accepts, for every text and whatever the header held before |
| `Ipv4.FieldsParsed` | cs144-lab5/libsponge/tcp_helpers/ipv4_header.cc:23-50 | Every field is read off its place in the first twenty bytes (RFC 791, section 3.1) |
| `Ipv4.SerializedLayout` | cs144-lab5/libsponge/tcp_helpers/ipv4_header.cc:78-110 | and written to its place; the high bits of the header length are lost |
| `Ipv4.HeaderVerdict` | cs144-lab5/libsponge/tcp_helpers/ipv4_header.cc:23-75 | The verdict of the header parser on every text, error by error |
| `Ipv4.PseudoChecksumSums` | cs144-lab5/libsponge/tcp_helpers/ipv4_header.cc:112-131 | The pseudo-checksum is the sum of the twelve bytes of the pseudo-header: both addresses, a zero, the protocol, and the payload length |
| `Ipv4.FilledHeaderVerifies` | cs144-lab5/libsponge/tcp_helpers/ipv4_datagram.cc:30-37 | The header, with its checksum filled in, verifies |
| `Ipv4.ParseIpv4Header` | cs144-lab5/libsponge/tcp_helpers/ipv4_header.cc:23-75 | Field by field, with the checks in the source's order |
| `Ipv4.SerializeIpv4Header` | cs144-lab5/libsponge/tcp_helpers/ipv4_header.cc:78-110 | Field by field, padded; refused for a wrong version or length |
| `Ipv4.ParseIpv4Datagram` | cs144-lab5/libsponge/tcp_helpers/ipv4_datagram.cc:12-22 | Header and payload; the verdict is about the payload size |
| `Ipv4.SerializeIpv4Datagram` | cs144-lab5/libsponge/tcp_helpers/ipv4_datagram.cc:24-43 | Refused for a wrong payload size; otherwise the checksum over the header is filled in |
| `TcpOverIp.WritableIff` | cs144-lab5/libsponge/tcp_helpers/tcp_over_ip.cc:75-90 | A wrapped segment can be written as a datagram if and only if its length fits sixteen bits |
| `TcpOverIp.CarriedRoundTrip` | cs144-lab5/libsponge/tcp_helpers/tcp_over_ip.cc:26-90 | From adapter to adapter over the bytes of the datagram: the segment comes back with the connection's ports and its checksum filled in, nothing else changed |
| `TcpOverIp.CarriedTextVerifies` | cs144-lab5/libsponge/tcp_helpers/tcp_over_ip.cc:75-90 | What goes on the wire verifies as one text behind the addresses, the protocol and the length, as any receiver of RFC 793 computes it |
| `TcpOverIp.ConnectedTakesIff` | cs144-lab5/libsponge/tcp_helpers/tcp_over_ip.cc:26-71 | A connected adapter takes a datagram if and only if its addresses are those of the connection, it holds a segment that verifies, and the ports are those of the connection; it takes the segment the bytes spell out; otherwise it takes nothing |
| `TcpOverIp.ListenerBindsIff` | cs144-lab5/libsponge/tcp_helpers/tcp_over_ip.cc:26-71 | A listening adapter takes, of all datagrams, those that hold a SYN without RST to its port, and is then bound to both addresses and the peer's port |
| `TcpOverIp.ListenerTakesIff` | cs144-lab5/libsponge/tcp_helpers/tcp_over_ip.cc:54-63 | A listening adapter takes it if and only if it is a SYN without RST to its port, and is then bound to the peer |
| `TcpOverIp.TCPOverIPv4Adapter.SetListening` | cs144-lab5/libsponge/tcp_helpers/fd_adapter.hh:27 | Sets the flag and nothing else |
| `TcpOverIp.TCPOverIPv4Adapter.WrapTcpInIp` | cs144-lab5/libsponge/tcp_helpers/tcp_over_ip.cc:75-90 | The object does what the function says |
| `TcpOverIp.TCPOverIPv4Adapter.UnwrapTcpInIp` | cs144-lab5/libsponge/tcp_helpers/tcp_over_ip.cc:26-71 | The object does what the function says, its configuration included |
| `NetworkInterfaces.SendConsistent` | cs144-lab6/libsponge/network_interface.cc:32-101 | Sending keeps cached and awaited addresses unique and disjoint, and every lifetime with an awaited address or one cached for longer |
| `NetworkInterfaces.RecvConsistent` | cs144-lab6/libsponge/network_interface.cc:104-231 | So does receiving any frame |
| `NetworkInterfaces.TickConsistent` | cs144-lab6/libsponge/network_interface.cc:234-265 | So does the passing of time |
| `NetworkInterfaces.HandsUpIff` | cs144-lab6/libsponge/network_interface.cc:104-156 | A frame hands up a datagram if and only if it is addressed to this interface, its type is not ARP, and its payload reads as that datagram |
| `NetworkInterfaces.NetworkInterface.SendDatagram` | cs144-lab6/libsponge/network_interface.cc:32-101 | The object does what the function says: send, ask, or drop |
| `NetworkInterfaces.NetworkInterface.RecvFrame` | cs144-lab6/libsponge/network_interface.cc:104-231 | The object does what the function says |
| `NetworkInterfaces.NetworkInterface.RecvRequest` | cs144-lab6/libsponge/network_interface.cc:160-227 | A broadcast request: learn, release what waits, answer if asked |
| `NetworkInterfaces.NetworkInterface.Tick` | cs144-lab6/libsponge/network_interface.cc:234-265 | The object does what the function says |
| `NetworkInterfaces.NetworkInterface.AgeMappings` | cs144-lab6/libsponge/network_interface.cc:235-247 | The loop over the cache |
| `NetworkInterfaces.NetworkInterface.AgeRequests` | cs144-lab6/libsponge/network_interface.cc:248-264 | The loop over the lifetimes |
| `AddressResolution.ResolveFrames` | cs144-lab6/libsponge/network_interface.cc:121-135 | A reply for an awaited address adds exactly the waiting datagram, to the address it names |
| `AddressResolution.RunIsTimely` | cs144-lab6/libsponge/network_interface.cc:32-265 | Over every run, requests are spaced, cache entries are vouched for by messages heard, and uses are fresh |
| `AddressResolution.ResolutionIsTimely` | cs144-lab6/libsponge/network_interface.cc:32-265 | Two requests for one address are at least 5000 ms apart, and every IPv4 frame uses an address that an ARP message from that next hop named less than 30000 ms before (RFC 826) |
| `AddressLifetimes.ReceiptOutcome` | cs144-lab6/libsponge/network_interface.cc:104-231 | Everything a frame does to an interface, field by field: whether it is heeded, what it releases, what is learnt, and the reply, sent exactly to requests for the interface's own address and naming its own addresses |
| `AddressLifetimes.SendOutcome` | cs144-lab6/libsponge/network_interface.cc:32-101 | Everything a send does: the frame to a known address; the request, field by field; or nothing |
| `AddressLifetimes.AnswerReleases` | cs144-lab6/libsponge/network_interface.cc:66-135 | The datagram sent towards an unknown hop is the one that goes out when the hop is heard of, to the address named, whatever else happens in the 5000 ms before |
| `AddressLifetimes.SilenceDiscards` | cs144-lab6/libsponge/network_interface.cc:248-264 | Without an answer it is discarded after 5000 ms, and the next send asks again |
| `AddressLifetimes.LearntServes` | cs144-lab6/libsponge/network_interface.cc:36-54 | An address that has been learnt serves every datagram of the next 30000 ms, whatever other messages arrive, and none later |
| `Routers.MaskComparesPrefix` | cs144-lab6/libsponge/router.cc:47-51 | The mask test is the comparison of the leading bits, for every length from 0 to 32 |
| `Routers.ScanFindsBest` | cs144-lab6/libsponge/router.cc:42-57 | The scan finds the last-added route among the longest that match, or none if and only if none matches (RFC 1812, section 5.2.4.3) |
| `Routers.ForwardMeaning` | cs144-lab6/libsponge/router.cc:40-86 | A datagram is dropped if and only if no route matches or its TTL is at most one; otherwise the best route's interface sends it with a TTL reduced by one |
| `Routers.ForwardQueuesInOrder` | cs144-lab6/libsponge/router.cc:88-97 | Queue by queue is the same as all queues in one line |
| `Routers.Router.AddRoute` | cs144-lab6/libsponge/router.cc:25-37 | Appends a route, of whatever length and for whatever interface; the table stays usable if and only if both are in range |
| `Routers.Router.AddInterface` | cs144-lab6/libsponge/router.hh:79-82 | Appends an interface and returns its number |
| `Routers.Router.FindRoute` | cs144-lab6/libsponge/router.cc:42-57 | The loop over the table |
| `Routers.Router.RouteOneDatagram` | cs144-lab6/libsponge/router.cc:40-86 | The interfaces become what forwarding says |
| `Routers.Router.RouteAll` | cs144-lab6/libsponge/router.cc:88-97 | Every queue is emptied and each datagram forwarded exactly once, in order |
| `Routers.Router.DrainQueue` | cs144-lab6/libsponge/router.cc:91-95 | The inner loop |
| `Routers.AsyncNetworkInterface.RecvFrame` | cs144-lab6/libsponge/router.hh:31-39 | Exactly the datagram of a frame addressed to the interface is queued for the router |
| `RouterRuns.EachOnceInOrder` | cs144-lab6/libsponge/router.hh:31-39 | Over every run of a router, what has been routed from an interface's queue, followed by what is still in it, is the datagrams of the frames addressed to that interface: each once, and in order |
| `RouterRuns.EachSentOnce` | cs144-lab6/libsponge/router.cc:40-97 | Routing a line of datagrams gives each to the interface of its best route, once and in order, for the route's next hop or its destination, with a TTL reduced by one; and those without a route or a hop left to none |
| `RouterRuns.KnownHopsSend` | cs144-lab6/libsponge/network_interface.cc:32-54 | With the addresses of the next hops known, each goes out at once, as one frame to its hop |
| `RouterRuns.RoundForwardsArrivals` | cs144-lab6/libsponge/router.cc:88-97 | From empty queues, one round of routing gives each interface exactly its share of the datagrams that arrived, and leaves the queues empty |

## Left out

Not modelled:

- Sockets, file descriptors, TUN/TAP adapters, the event loop and `TCPSpongeSocket`: system calls and plumbing.
- The programs in `apps/` and `doctests/`: user interface and drivers.
- `Address`, DNS and the byte formats of ARP messages and Ethernet headers: a frame carries the parsed ARP message, the datagram, or the fact that neither can be read. The IPv4 and TCP formats are modelled.
- Random initial sequence numbers: the number is a parameter.
- The destructor of `TCPConnection`: it does what `UncleanShutdown(true)` does.
- `to_string`, `summary`, `operator==` of headers, debugging output: output only. The receiver's summary and the state table in `tcp_state.cc` repeat their fields.
- Reference counting of `Buffer` and the fragments of `BufferList`: payloads are flat byte sequences.
- The other copies of these classes in labs 1 to 5.

Modelled differently:

- The source's loops of `push_substring`, `fill_window`, `ack_received`, `push_segments_out`, `tick` and `route` stand in methods of their own, named in the table, so that each has a contract.
- Counters are unbounded, with 64-bit wrap-around written out where the code's result depends on it (`MaxLength`, `StreamIndex`, `Room`, `Unwrap`) and no wrap-around of the two right ends in the receiver's window test; the theorems about whole runs of connections assume streams shorter than 2^63 - 2^32 bytes and less than 2^31 sequence numbers in flight.
- The drain loop reads the first entry of a map that may be empty in the source (`stream_reassembler.cc:45`); the model asks first.
- The broadcast branch of `recv_frame` uses an iterator after erasing its element (`network_interface.cc:179-181`); the model takes a copy first, as the reply branch does.
- `_ip_queue` and `_ip_life` are keyed by an `Address`, whose comparison the standard map takes from a conversion to a pointer; the model keys them by `ipv4_numeric`, as every search of them does.
- `_windows` of the reassembler is a local value: it is overwritten before every use.
- Routing along a route with a length above 32, or to an interface that does not exist, is undefined behaviour in the source; such routes can be added, but routing requires that there are none.
- `AddInterface` takes an object that is not yet in the router, where the source moves one in.

Stated with a condition:

- EndToEnd.PrefixSafety: the receive capacity is at most 65535, since the window field has 16 bits; deliveries are of packets less than 2^31 from where the receiver stands, since older ones alias on the wire; no delivery is harmful. That last condition is exact for ends and numbers (`NeverFaultyIff`); for the bytes it is sufficient, and `DeliveredBytes.PrefixKeptIff` has the exact condition, over every run and without a bound on the capacity.
- DeliveredBytes.PrefixKeptIff: deliveries are less than 2^31 from where the receiver stands, as in `PrefixSafety`.
- EndToEnd.NoLoss: as `PrefixSafety`; forged acknowledgements are excluded, since they make a sender discard anything.
- TcpReceivers.ReceivedFaithfulIff: the segment is less than 2^31 from the checkpoint; SYN segments carry no payload, as those of this sender never do.
- TcpReceivers.VerdictIff: the segment and the number expected next are less than 2^31 from the checkpoint; so is `ConnectionReplies.EmptyIsAnsweredIff`.
- ConnectionResets.FailedIff: segments are received with less than 2^31 sequence numbers in flight and streams below the bound above, since other ones alias on the wire.
- TcpReceiverRuns.OvercountedIff: for runs whose stream does not end short; after an early end the reassembler counts from zero again, and nothing is promised.
- TcpReceivers.NumberGoesBackIff: for numbers that are at most one past the bytes written and a noted FIN, as a fresh receiver's is and as the lemma keeps it, and lag less than 2^31 behind.
- Conversations.ConversationCompletes: each line fits one segment, the window it is written into and the buffers at both ends, as single bytes always do; the end that closes first has a timeout above zero.
- TcpSenders.AckKeeps: less than 2^63 sequence numbers, of which less than 2^31 are in flight, since stored numbers are unwrapped on the way.
- StreamReassemblers.PushKnown: for pushes that start at or before the right edge, while the stream has not ended; `EdgeRespectedIff` says what happens past the edge.
- ConnectionClose.CleanCloseIsHonest: reopening with `connect` after a close is not excluded; the statement is about the state reached.
- CloseDelivers.CleanCloseDelivers: a whole stream is what the sender took from it before its FIN; bytes written after the end are never sent.
- ConnectionReplies.KeepAliveIsAnswered: not for a probe with an ACK while a reply to our own FIN is awaited, when the source lets a bare ACK go unanswered.
- Ipv4.ChecksumIsNotEnforced: for texts whose lengths agree; `ParseAcceptsIff` covers every text.
