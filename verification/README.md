# A verified model of nssh

nssh is a reverse tunnel: a client behind a firewall opens an SSH connection to a server, which forwards a remote
TCP or UDP port back to a local service. This project models the parts of the client with the most state and
arithmetic, in Dafny, and proves what they promise:

- **The UDP data plane** (`base_tunnel/udp_proxy.go`, `base_tunnel/udp_datagram.go`): the frame formats
  (`FrameCodec`), the fragmenter (`Fragmentation`), the reassembler (`Reassembly`), the frame decoder (`Decoding`),
  the negotiation (`Negotiation`), what a session carries (`Relay`), the proxy object that ties them together
  (`UdpProxy`), the keepalive and cleanup timers (`FlowTimers`) and the concurrent flow table (`FlowTable`).
- **Its end-to-end behaviour**: any history of the reassembler (`ReassemblyHistory`), delivery over any reordering
  (`Delivery`), safety and order when frames are lost (`LossyDelivery`), the fate of one datagram among losses
  (`SingleDelivery`), which mixes of fragments can come out (`MixedFragments`), the same theorems on the bytes of the
  wire (`WireDelivery`) and order over several channels (`ShardOrder`).
- **The compressing writer** (`base_tunnel/compress.go`): `Compression`.
- **The daemon**: the worker table under every interleaving (`WorkerTable`, with its commands on the mutable map in
  `Daemon`), worker ids and targets (`WorkerIds`), one connection attempt (`Session`), the online status of workers
  (`WorkerStatus`) and the lifetime check (`Lifetime`).

`Bytes` holds machine integers, big-endian fields and concatenation. `dafny verify dfyconfig.toml` checks everything.

## How the program is modelled

Code that updates state in place is written as classes and loops (`Reassembler`, `Proxy`, `CompressWriter`, `Daemon`,
`WorkerInfo`, the encoders over arrays). Each method is proved against a function of the old state (`AddStep`,
`PlanWrite`, `FrameBlocks`, `Apply`), and the theorems are about those functions. The formats, limits and timeouts are
stated again in plain numbers and field by field (`V2Layout`, `DroppedExactly`, `ReplyRead`, `TimeoutsExactly`, ...). Behaviour that depends on
how goroutines interleave (`FlowTable`, `WorkerTable`, `WorkerStatus`, `ShardOrder`) is a state machine whose steps
are the atomic actions of the goroutines; a run is any sequence of enabled steps, of any length, and the theorems
hold in every state of every run.

What the environment does is left open. A write to a channel may fail, a dial may fail, a sink may take any part of
what it is given, and replies, frames, clocks and schedules are arbitrary. The assumptions are:

- One frame is written atomically: frames of different goroutines on one channel do not interleave inside a frame.
- Each pump writes datagram after datagram, and the fragments of a datagram one after the other. A flow id may have
  more than one pump at a time.
- Deflate (RFC 1951) is a pair of functions with `inflate(deflate(b)) == b` and a non-empty result (`Lawful`).
- Closing the SSH client closes the transport under it.
- A datagram read from a UDP socket is at most 65507 bytes long where a theorem says so.

## What the proofs found

- **The 255-fragment guard is reachable.** A comment at `base_tunnel/udp_proxy.go:542` calls it unreachable. That is
  true exactly for a fragment limit of at least 257 (`CapUnreachableExactly`); negotiation accepts limits from 1 up,
  and smaller ones lose long datagrams without an error.
- **A stream cut after a header looks finished.** The readers return a plain `EOF`, not `UnexpectedEOF`, exactly when a
  stream ends at a frame boundary or right after a header (`CutStream`).
- **Fragments of several datagrams can be joined into one that nobody sent** (`FastReuseMixes`), if they share flow id,
  fragment id and fragment count. Whatever the timing, that is the only way: something never sent can come out of a list
  of datagrams exactly when one of its mixes of such pieces fits into 65507 bytes and is none of them
  (`NothingForgedExactly`). A stricter reading, that a packet comes out only when every piece of that datagram has
  arrived, holds exactly when no two fragmented datagrams share the three (`NeverWrongExactly`). The two differ for
  identical twins, whose pieces can replace each other unnoticed (`TwinsAreHarmless`). Pairs that are more than one
  reassembly timeout apart do no harm (`NeverWrong`), and fewer than 65536 fragmentations in one timeout keep them apart
  (`SlowFragmentationsReuseSlowly`).
- **Half-received datagrams block others after their timeout.** A new datagram is refused while 16 slots are in the
  table, however old they are; only the 30 s sweep or a fragment of the same slot removes them (`FullTableRefuses`). For
  one datagram whose fragments all arrive in time that is the only danger: it comes out exactly when the table had room
  at its first fragment (`DeliveredExactly`). After 16 losses a whole datagram comes out if and only if a sweep that
  finds the slots stale comes first (`LeftoversBlockUntilSwept`).
- **Two pumps of one flow id can overtake each other.** A flow can be removed while its pump is inside the fragment
  loop, and the next packet tables a new flow with the same id and its own pump (`TwoPumpsOfOneId`); a datagram begun
  later is then decoded first (`PumpsOvertake`). Each pump's datagrams stay in order in any case (`OrderOverShards`).
  Where every frame arrives in time, the flows are decoded in order exactly when the last pieces of each flow's datagrams
  are written in order, however the other pieces interleave (`DecodedInOrderExactly`, `TurnsAreDecodedInOrder`); with
  losses that is still enough (`FlowOrderOverShards`). It always holds when no second flow of the id is tabled before the
  old pump returns (`OnePumpWritesInOrder`, `WrittenInOrderEndsInOrder`).
- **A user's stop can come back as an error.** The connection's context is derived from the caller's, so a cancellation
  that lands while the loop is busy makes both cases of the next `select` ready, and the loop may take the connection's
  (`StopCanReturnAnError`). A nil error does mean a user's stop; a stop gives nil exactly when the loop sees it on the
  caller's context (`NilIsTheUsersStop`, `StopEndsTheLoop`).
- **An idle timeout below 150 s wastes keepalives.** A flow can be reaped while it still has keepalives to send exactly
  when the configured timeout is shorter than that (`NeverReapedEarlyExactly`), also with tickers that are exact.
- **`closeAll` does not always leave every socket closed at the moment it returns.** After all readers have exited the
  table is empty for good, but a goroutine that already deleted its flow may still have to close the socket
  (`CloseAllLeavesNothing`, `CloseAllCanBeatAPump`). With a reader still running, a flow can appear later
  (`CloseAllCanBeatAReader`).
- **A start between a stop's lookup and its delete orphans a worker**, because the delete goes by key
  (`StartInsideAStopOrphansAWorker`). A delete takes a live worker out of the table exactly when such a start lies in its
  window and nothing before the delete replaced, cancelled or removed the worker (`DeleteHarmsExactly`,
  `DeleteLosesExactly`).
- **Restarting with the same configuration object can show a worker online without a tunnel**, because the hook in the
  configuration is shared (`SharedConfigurationsLie`). After a worker began, the hook marks another one exactly when
  another worker with that configuration began since (`HookMovesExactly`), and a report makes the status wrong exactly
  when the last of those to begin has no report of its own standing (`ReportLiesExactly`). A run never shows a wrong
  status exactly when it has no such report (`AlwaysHonestExactly`).
- **A username with an `@` breaks targets**: the worker's id does not parse back and does not select its own worker
  (`IdRoundTripExactly`, `IdSelectsExactly`).
- **Ids are distinct as long as no host has an `@`**, whatever the usernames (`KeysInjective`). An id is shared with some
  other fields exactly when the username or the host has an `@` (`KeyUniqueExactly`), and one of the two hosts then has
  one. Validation of a start command rejects such a host (`daemon/daemon.go:82-116`), so it can only come from a register
  command, which is not validated (`daemon/daemon.go:651-676`); `KeysCollide` is such a pair.
- **The reject streak counts every rejection of a worker's life**, because its reset is never reached
  (`StreakIsNeverReset`). A rejection, a failed dial and a rejection make two (`StreakOfTwo`). It is the number of
  rejections in a row exactly when no rejection was followed by another kind of failure (`StreakIsConsecutiveExactly`).

## Model

| member | source | states |
|---|---|---|
| `FrameCodec.EncodeUDPFrame` | base_tunnel/udp_proxy.go:102-108 | the array built field by field is the v1 encoding, with the length truncated to 16 bits |
| `FrameCodec.EncodeUDPFrameV2` | base_tunnel/udp_proxy.go:129-139 | the same for the v2 header |
| `FrameCodec.ReadUDPFrame` | base_tunnel/udp_proxy.go:112-126 | reads exactly what `Parse` gives for v1, with the error and the rest of the stream |
| `FrameCodec.ReadUDPFrameV2` | base_tunnel/udp_proxy.go:142-160 | the same for v2 |
| `FrameCodec.ParseUDPFrameV2Bytes` | base_tunnel/udp_datagram.go:52-69 | succeeds on a byte string exactly when the stream reader does, with the same metadata and payload |
| `FrameCodec.SliceParsesExactly` | base_tunnel/udp_datagram.go:52-69 | a slice holds a frame if and only if it has its header and its payload; bytes after them are ignored |
| `FrameCodec.ParseEncode` | base_tunnel/udp_proxy.go:102-160 | an encoded frame in front of anything is read back and exactly its bytes are consumed |
| `FrameCodec.V1Layout` | base_tunnel/udp_proxy.go:102-108 | the six header bytes as numbers: big-endian flow id and length, then the payload |
| `FrameCodec.V2Layout` | base_tunnel/udp_proxy.go:128-139 | the eleven header bytes as numbers: flow id, flags, fragment id, index, count, length |
| `FrameCodec.RoundTripExactly` | base_tunnel/udp_proxy.go:128-160 | a v2 frame survives if and only if its payload is shorter than 65536 bytes |
| `FrameCodec.EncodeParse` | base_tunnel/udp_proxy.go:112-160 | whatever is read is the encoding of what was read |
| `FrameCodec.StreamRoundTrip` | base_tunnel/udp_proxy.go:102-160 | any list of frames written back to back is read back as that list and then a clean end |
| `FrameCodec.CutStream` | base_tunnel/udp_proxy.go:112-160 | a cut anywhere inside a frame gives the complete frames and an error, and which error |
| `Fragmentation.AllOrNothing` | base_tunnel/udp_proxy.go:526-563 | no frame, one whole frame, or fragments 0..n-1 with one id and count, non-empty, within the limit, that concatenate to the datagram |
| `Fragmentation.V1DroppedExactly` | base_tunnel/udp_proxy.go:453-458 | a v1 session drops a datagram if and only if it is longer than the negotiated size, or than 1400 bytes without one |
| `Fragmentation.DroppedExactly` | base_tunnel/udp_proxy.go:533-543 | a v2 session drops a datagram if and only if it is longer than 65507 or than 255 full fragments |
| `Fragmentation.CapUnreachableExactly` | base_tunnel/udp_proxy.go:540-543 | the 255 guard drops nothing up to 65507 bytes if and only if the limit is at least 257 |
| `Fragmentation.PieceIsSlice` | base_tunnel/udp_proxy.go:545-550 | the slice bounds of the loop select the i-th piece |
| `Fragmentation.CeilDivCountsPieces` | base_tunnel/udp_proxy.go:540 | the rounded-up division counts the pieces |
| `Fragmentation.FramesExpressible` | base_tunnel/udp_proxy.go:526-563 | no frame of a datagram up to 65507 bytes overflows its length field |
| `Fragmentation.FragIDsDiffer` | base_tunnel/udp_proxy.go:544 | two fragmentations get the same id if and only if a multiple of 65536 lies between them, across the 32-bit wrap |
| `Fragmentation.SharesChannelExactly` | base_tunnel/udp_proxy.go:255-262 | flow ids below the number of channels have the channel of that number, and two flows share one if and only if their ids are congruent |
| `Reassembly.KeyInjective` | base_tunnel/udp_proxy.go:189-191 | slot keys are equal if and only if flow and fragment id are |
| `Reassembly.Reassembler.Add` | base_tunnel/udp_proxy.go:195-241 | the in-place `add` changes the slots and returns a datagram exactly as `AddStep` says, and keeps the invariant |
| `Reassembly.Reassembler.Sweep` | base_tunnel/udp_proxy.go:244-253 | the in-place `sweep` removes exactly the stale slots |
| `Reassembly.Join` | base_tunnel/udp_proxy.go:235-238 | the append loop joins the fragments in index order |
| `Reassembly.OneFragment` | base_tunnel/udp_proxy.go:195-241 | a fragment that is the only one of its count is delivered at once |
| `Reassembly.AddKeepsInvariant` | base_tunnel/udp_proxy.go:195-241 | whatever arrives: at most 16 slots, each partly filled, its count the fragments present, its size their bytes and at most 65507 |
| `Reassembly.SweepKeepsInvariant` | base_tunnel/udp_proxy.go:244-253 | the invariant again, and no slot older than the timeout afterwards |
| `Reassembly.BufferedBytesBounded` | base_tunnel/udp_proxy.go:162-187 | at most 16 times 65507 bytes are buffered |
| `ReassemblyHistory.ReachableMemoryBound` | base_tunnel/udp_proxy.go:195-253 | the bound holds after every sequence of calls |
| `ReassemblyHistory.SlotsAreBacked` | base_tunnel/udp_proxy.go:195-253 | after any history a slot holds exactly the fragments received for its key since it was opened, one call per index |
| `ReassemblyHistory.NoFabrication` | base_tunnel/udp_proxy.go:195-241 | every delivery is the concatenation in index order of exactly `fragCnt` received fragments of that flow, id and count |
| `ReassemblyHistory.DeliveriesAreDisjoint` | base_tunnel/udp_proxy.go:195-241 | no fragment is used by two deliveries of a key |
| `Decoding.FlagsDecide` | base_tunnel/udp_proxy.go:581-595 | which of keepalive, whole datagram and fragment a frame is, for every flag byte |
| `Decoding.KeepaliveLayout` | base_tunnel/udp_proxy.go:711-712 | the eleven bytes of a keepalive |
| `Decoding.DecodeEncoded` | base_tunnel/udp_datagram.go:73-92 | decoding the bytes of a frame is decoding the frame |
| `Delivery.EndToEnd` | base_tunnel/udp_proxy.go:195-253 | under any reordering, delay, sweeps and keepalives a datagram comes out at the arrival of its last missing frame, and nothing else comes out |
| `Delivery.ExactlyOnce` | base_tunnel/udp_proxy.go:195-253 | over the whole run every datagram that has frames comes out exactly once, unchanged |
| `LossyDelivery.NeverWrong` | base_tunnel/udp_proxy.go:195-253 | with frames lost, late or refused, what comes out is still a written datagram, complete and unchanged, unless a key is reused within the timeout for as many fragments |
| `MixedFragments.NothingForgedExactly` | base_tunnel/udp_proxy.go:205-241 | for a list of datagrams only written ones can come out, in any run at any times, if and only if every mix of pieces of one flow id, fragment id and count that fits a datagram is one of them |
| `MixedFragments.NeverWrongExactly` | base_tunnel/udp_proxy.go:205-241 | what comes out is in every run the datagram whose last missing piece just arrived, if and only if no two fragmented ones share flow id, fragment id and count; a packet of which a piece is missing counts as wrong, whatever its bytes |
| `MixedFragments.TwinsAreHarmless` | base_tunnel/udp_proxy.go:205-241 | two identical datagrams under one key: a piece can be missing, but nothing that was not sent comes out |
| `SingleDelivery.DeliveredExactly` | base_tunnel/udp_proxy.go:195-253 | whatever is lost elsewhere, a datagram whose fragments all arrive in time, with no other fragment of its key from one timeout before them on, comes out at its last fragment if and only if fewer than 16 slots, stale ones included, were in the table at its first; at no other fragment does anything come out |
| `SingleDelivery.GapsDecide` | base_tunnel/udp_proxy.go:195-241 | a datagram alone, its pieces in any order, comes out if and only if none comes more than 300 ms after the one before |
| `SingleDelivery.FullTableRefuses` | base_tunnel/udp_proxy.go:212-215 | from a full table on, every fragment of a new key is refused and the table unchanged until a sweep or a fragment of one of the slots |
| `SingleDelivery.LeftoversBlockUntilSwept` | base_tunnel/udp_proxy.go:789-800 | after 16 half-received datagrams, a whole one comes out if and only if the sweeper ran more than the timeout after them |
| `LossyDelivery.NeverTwice` | base_tunnel/udp_proxy.go:195-253 | and no datagram comes out twice, if no frame is duplicated |
| `LossyDelivery.LaneSubsequence` | base_tunnel/udp_proxy.go:195-253 | a writer whose frames arrive in order gets a subsequence of its datagrams out, in order |
| `LossyDelivery.FlowSubsequence` | base_tunnel/udp_proxy.go:195-253 | a flow whose frames arrive in order gets a subsequence of its datagrams, in order |
| `LossyDelivery.FastReuseMixes` | base_tunnel/udp_proxy.go:205-241 | a concrete run with an id reused within the timeout that outputs a datagram nobody wrote |
| `WireDelivery.WireEndToEnd` | base_tunnel/udp_proxy.go:526-596 | end-to-end delivery from calls of `writeDatagram`, through the encoded bytes, to decoded packets |
| `WireDelivery.WireExactlyOnce` | base_tunnel/udp_proxy.go:526-596 | the decoded packets are the written datagrams that were not dropped, each once, byte-identical |
| `WireDelivery.IDsRepeatSlowly` | base_tunnel/udp_proxy.go:544 | two fragmented datagrams of a session share an id only if 65536 fragmentations lie between them |
| `ShardOrder.ShardsKeepPumpsFifo` | base_tunnel/udp_proxy.go:255-262 | any schedule of one reader per channel sees each pump's frames in the order they were written |
| `ShardOrder.ShardsKeepFlowsFifo` | base_tunnel/udp_proxy.go:255-262 | and a flow's frames, where they were written in order |
| `ShardOrder.SlowFragmentationsReuseSlowly` | base_tunnel/udp_proxy.go:207-211 | fewer than 65536 fragmentations in a timeout keep slot keys from being reused too soon |
| `ShardOrder.OrderOverShards` | base_tunnel/udp_proxy.go:468-563 | over any number of channels, any schedule and any number of pumps a flow, the packets decoded for a pump are a subsequence of its datagrams, in order |
| `ShardOrder.DecodedInOrderExactly` | base_tunnel/udp_proxy.go:468-563 | for any number of pumps a flow and any schedule, where every frame arrives in time: of two packets of a flow the one out first has the smaller number, if and only if the last pieces of each flow's datagrams are written in order |
| `ShardOrder.FlowOrderOverShards` | base_tunnel/udp_proxy.go:468-563 | with frames lost or late, a whole flow's packets are still a subsequence of its datagrams, in order, if those last pieces are written in order |
| `ShardOrder.WrittenInOrderEndsInOrder` | base_tunnel/udp_proxy.go:545-561 | they are where all frames of the flow are written in order |
| `ShardOrder.OnePumpWritesInOrder` | base_tunnel/udp_proxy.go:394-408 | which is so if the id has one pump at a time |
| `ShardOrder.TurnsAreDecodedInOrder` | base_tunnel/udp_proxy.go:545-561 | two pumps whose fragments alternate, out of order, and which every schedule decodes in order |
| `ShardOrder.PumpsOvertake` | base_tunnel/udp_proxy.go:545-561 | two pumps of one flow id, each in order, whose datagrams are decoded in the wrong order |
| `Relay.V1Carries` | base_tunnel/udp_proxy.go:526-576 | the bytes of any writes of a v1 session, read frame by frame, are exactly the datagrams of at most the negotiated size, or 1400 bytes, each under its own flow id, in order, then a clean end; table and flows are unchanged |
| `Relay.V2Carries` | base_tunnel/udp_proxy.go:526-596 | the same for v2, from an empty table: exactly the datagrams of at most 65507 bytes and 255 fragments, and the table is empty again |
| `Relay.DatagramsCarry` | base_tunnel/udp_datagram.go:36-92 | the same for the QUIC datagrams of a session in datagram mode |
| `Relay.DatagramLayout` | base_tunnel/udp_datagram.go:36-48 | a QUIC datagram is the port in two bytes, then the v2 frame |
| `Relay.KeepaliveRefreshes` | base_tunnel/udp_proxy.go:581-587 | a keepalive makes its own flow seen now and changes nothing else |
| `UdpProxy.BufferNeverCutsExactly` | base_tunnel/udp_proxy.go:393-408 | a read buffer never makes the pump forward a cut datagram if and only if it is longer than every datagram that is sent |
| `UdpProxy.PumpNeverCuts` | base_tunnel/udp_proxy.go:476-488 | the program's buffer size is safe for every negotiated limit |
| `UdpProxy.Proxy.constructor` | base_tunnel/udp_proxy.go:743-763 | a new proxy is wired, with an empty table, an empty reassembler and a zero counter |
| `UdpProxy.Proxy.WriteFrame` | base_tunnel/udp_proxy.go:503-508 | one v1 frame goes to the flow's channel, whole or not at all |
| `UdpProxy.Proxy.WriteFrameV2` | base_tunnel/udp_proxy.go:511-519 | one v2 frame goes to the flow's channel or out as a datagram |
| `UdpProxy.Proxy.SendDatagramFrame` | base_tunnel/udp_datagram.go:36-48 | the datagram sent is the 16-bit port followed by the v2 frame |
| `UdpProxy.Proxy.WriteFragments` | base_tunnel/udp_proxy.go:544-562 | the loop writes all fragment frames, or a strict prefix when a write fails |
| `UdpProxy.Proxy.WriteDatagram` | base_tunnel/udp_proxy.go:526-563 | writes exactly the planned frames, or a strict prefix when a write fails; the counter moves as planned and no other channel is touched |
| `UdpProxy.Proxy.HandleFrame` | base_tunnel/udp_proxy.go:581-595 | a keepalive refreshes only its own flow; other frames are decoded as `DecodeFrame` says |
| `UdpProxy.Proxy.ReadDatagramFrom` | base_tunnel/udp_proxy.go:572-596 | one frame is consumed and has exactly the effect of `Receive`; an error changes nothing else |
| `UdpProxy.Proxy.DecodeDatagramBytes` | base_tunnel/udp_datagram.go:73-92 | a QUIC datagram has the effect of `DecodeSlice`; a malformed one has none |
| `UdpProxy.Proxy.GetOrCreateFlow` | base_tunnel/udp_proxy.go:599-631 | a tabled flow is refreshed and kept; otherwise the first flow stored under the id is tabled and a reader that lost the race closes its own socket, or nothing changes when the dial fails |
| `UdpProxy.Proxy.DeliverToLocal` | base_tunnel/udp_proxy.go:680-691 | a packet goes to its own flow's socket and no other; an empty one sends nothing; a failed write removes the flow |
| `UdpProxy.Proxy.Remove` | base_tunnel/udp_proxy.go:386-391 | the first call deletes the entry and closes the socket, a later one does nothing |
| `UdpProxy.Proxy.SweepIdleFlows` | base_tunnel/udp_proxy.go:634-642 | exactly the flows idle for longer than the timeout leave the table with their sockets closed; the others are untouched |
| `UdpProxy.Proxy.KeepAlive` | base_tunnel/udp_proxy.go:702-719 | a due flow gets one keepalive on its own channel and is refreshed, or is removed when the write fails; a flow that is not due is untouched |
| `UdpProxy.Proxy.SendKeepalives` | base_tunnel/udp_proxy.go:694-721 | one round over the table: every due flow and no other is nudged once and refreshed, or removed and closed when its write fails; every channel gets exactly the keepalives of its nudged flows, in the order of the round |
| `UdpProxy.Proxy.CloseAll` | base_tunnel/udp_proxy.go:645-650 | the table is empty and every socket it held is closed |
| `UdpProxy.Proxy.Forward` | base_tunnel/udp_proxy.go:397-407 | what it puts out, decoded from an empty table, is exactly the socket's datagrams that are not too long, in order; or the first few of them when a write fails |
| `UdpProxy.Proxy.Pump` | base_tunnel/udp_proxy.go:394-408 | the same, and afterwards the flow is out of the table and its socket closed |
| `FlowTimers.TimeoutsExactly` | base_tunnel/udp_proxy.go:75-89 | 330 s unless configured, a keepalive after 90 s of silence, thirty of them |
| `FlowTimers.KeepalivesBounded` | base_tunnel/udp_proxy.go:697-720 | a flow sends at most 30 keepalives in its life, however often traffic refreshes it |
| `FlowTimers.BusyFlowLives` | base_tunnel/udp_proxy.go:633-642 | a flow with an inbound frame within the idle timeout before every cleanup is never reaped |
| `FlowTimers.AlwaysKeptFresh` | base_tunnel/udp_proxy.go:793-811 | with timers on time a quiet flow is refreshed every 150 s while it has keepalives left |
| `FlowTimers.QuietFlowIsReaped` | base_tunnel/udp_proxy.go:633-642 | a quiet flow is gone 150 s per remaining keepalive plus the idle timeout plus 30 s after its last frame |
| `FlowTimers.DefaultBound` | base_tunnel/udp_proxy.go:75-89 | at the default timeout a new flow without traffic is gone after 4860 s |
| `FlowTimers.NeverReapedEarlyExactly` | base_tunnel/udp_proxy.go:461-466 | a flow is never reaped before its remaining keepalives are sent if and only if the configured timeout is at least 150 s, whether ticks may be early or are exact |
| `FlowTable.DeleteEvictsOnlyItself` | base_tunnel/udp_proxy.go:386-391 | in every interleaving, the delete by key of a removal takes out its own flow and leaves every other entry |
| `FlowTable.SocketsAccountedFor` | base_tunnel/udp_proxy.go:599-631 | a socket is open if and only if its flow is tabled, or between dial and store, or between delete and close |
| `FlowTable.PacketsReachTheirOwnFlow` | base_tunnel/udp_proxy.go:680-688 | in every interleaving the socket a reader writes a packet to was dialled and tabled for that packet's flow id |
| `FlowTable.DialsOnlyWhenMissed` | base_tunnel/udp_proxy.go:599-610 | in every interleaving a reader dials only for an id that was not in the table at its latest lookup |
| `FlowTable.ReadersShareTheTabledFlow` | base_tunnel/udp_proxy.go:624-630 | readers with packets of one id write to the one flow tabled under it, unless that flow is being removed |
| `FlowTable.NothingBlocksARemoval` | base_tunnel/udp_proxy.go:386-391 | a removal that has started always has its next step enabled until it is done, and no other step sets it back |
| `FlowTable.ReadersGoOn` | base_tunnel/udp_proxy.go:386-391 | from any reachable state a reader that waits for a removal resumes within three steps, at most two of them the removal's |
| `FlowTable.CloseAllGoesOn` | base_tunnel/udp_proxy.go:645-650 | and so does `closeAll` |
| `FlowTable.TwoPumpsOfOneId` | base_tunnel/udp_proxy.go:386-408 | a run in which a flow id has two flows whose pumps have not returned |
| `FlowTable.CloseAllLeavesNothing` | base_tunnel/udp_proxy.go:782-819 | begun after all readers exited, `closeAll` leaves no flow from then on and no open socket but those between delete and close |
| `FlowTable.CloseAllCanBeatAPump` | base_tunnel/udp_proxy.go:386-391 | a run in which such a socket is still open when `closeAll` returns |
| `FlowTable.CloseAllCanBeatAReader` | base_tunnel/udp_proxy.go:813-819 | a run in which a reader that has not exited stores a flow after `closeAll` |
| `Negotiation.EveryReply` | base_tunnel/udp_proxy.go:304-354 | every byte string is refused or gives a well-formed session, and which of the two |
| `Negotiation.ReplyRead` | base_tunnel/udp_proxy.go:304-354 | for a reply of any length and any fields: its refusal, or when the session is v2, when it is in datagram mode, and its packet limit, fragment limit and number of channels |
| `Negotiation.OtherServers` | base_tunnel/udp_proxy.go:313-342 | a five-byte reply gives the v1 baseline on one channel; bytes after the eleventh are ignored |
| `Negotiation.SessionFramesFit` | base_tunnel/udp_datagram.go:26-48 | for every reply no frame truncates its length, and in datagram mode no QUIC datagram exceeds 1149 bytes |
| `Negotiation.RequestLayout` | base_tunnel/udp_proxy.go:281-295 | the bytes of the request, with the capability bits |
| `Negotiation.ShardDataLayout` | base_tunnel/udp_proxy.go:356-361 | the extra data of a channel: the port, and its number in the fifth byte |
| `Negotiation.OpenShards` | base_tunnel/udp_proxy.go:356-371 | one open channel per shard with its number in the extra data, or none left open after a failure |
| `Negotiation.SetupUDPForward` | base_tunnel/udp_proxy.go:280-372 | the request sent, the error that applies, the agreed terms and the channels opened, for every outcome |
| `Negotiation.Start` | base_tunnel/udp_proxy.go:743-763 | every set-up that succeeds starts a proxy in a valid state with a channel for every flow |
| `Compression.RoundTrip` | base_tunnel/compress.go:96-157 | for every sequence of writes the frames decode to the concatenation of the inputs, with nothing left over |
| `Compression.CutStream` | base_tunnel/compress.go:96-171 | a stream cut anywhere decodes to a prefix of the data |
| `Compression.CountedBytesDecode` | base_tunnel/compress.go:96-110 | after a sink error every counted byte can be decoded from what the sink holds, which is nothing but given data |
| `Compression.LatchExactly` | base_tunnel/compress.go:112-134 | the writer goes raw for good if and only if two blocks of at least 256 bytes in a row did not shrink; until then the streak is at most one |
| `Compression.RawForever` | base_tunnel/compress.go:113-134 | once raw, every later frame is raw |
| `Compression.BlockFrame` | base_tunnel/compress.go:112-157 | every payload is non-empty, at most its block and 64 KiB, and decodes to its block |
| `Compression.FrameLayout` | base_tunnel/compress.go:112-157 | the bytes of a block's frame: deflated with flag 1 if and only if the writer still tries, the block has 256 bytes and gets shorter; else as it is with flag 0 |
| `Compression.WriteOverhead` | base_tunnel/compress.go:96-157 | a write of L bytes emits at most L + 5 * ceil(L / 65536) bytes |
| `Compression.NextWrite` | base_tunnel/compress.go:96-110 | successive writes put out the frames of the sequence of their data |
| `Compression.WriteFull` | base_tunnel/compress.go:159-171 | everything is written over any partial writes, or a prefix |
| `Compression.CompressWriter.FillFrame` | base_tunnel/compress.go:136-146 | the frame in the reused buffer is exact, whatever an older frame left there |
| `Compression.CompressWriter.WriteBlock` | base_tunnel/compress.go:112-134 | one block puts out its frame, or a prefix of it, and moves the latch as specified |
| `Compression.CompressWriter.Write` | base_tunnel/compress.go:96-110 | the sink gets the frames of all blocks, or the frames of the counted blocks and a part of what follows |
| `WorkerTable.EntriesKeepTheirKeys` | daemon/daemon.go:1038-1075 | in every run each entry's key is the key built from its worker's own fields |
| `WorkerTable.OneLiveWorkerPerKey` | daemon/daemon.go:280-293 | with no start between a stop's lookup and its delete, every uncancelled worker is the entry of its key, and no key has two |
| `WorkerTable.DeleteHarmsExactly` | daemon/daemon.go:280-293 | in every run a delete takes a live worker's entry away if and only if some start of the key lies between the stop's lookup and the delete and no step before the delete undid it |
| `WorkerTable.DeleteLosesExactly` | daemon/daemon.go:280-293 | so in every run a delete takes some live worker out of the table if and only if such a start lies in the window of one of its keys; where every live worker was in the table, only then is one no longer |
| `WorkerTable.StopLeavesNoWorker` | daemon/daemon.go:280-293 | after a stop in such a run no live worker has a key it stopped |
| `WorkerTable.TakeOverExactly` | daemon/daemon.go:1300-1315 | a takeover empties the table and cancels exactly its workers; a live worker outside it stays live |
| `WorkerTable.WaitedMeansEnded` | daemon/daemon.go:284-286 | once a stop has waited, the workers it found have all ended |
| `WorkerTable.WaitingStopDeletesLast` | daemon/daemon.go:280-293 | so when such a stop deletes, every worker it found has ended |
| `WorkerTable.StartInsideAStopOrphansAWorker` | daemon/daemon.go:280-293 | a run with a start inside a stop that leaves a live worker out of the table |
| `Daemon.Daemon.StartWorker` | daemon/daemon.go:1043-1072 | the closure cancels the old worker of the key and enters the new one, as the step `Start` says |
| `Daemon.Daemon.CancelOldWorker` | daemon/daemon.go:580-587 | the closure cancels the worker of the key if there is one, as the step `CancelOld` says |
| `Daemon.Daemon.RegisterWorker` | daemon/daemon.go:676-723 | an unknown worker is entered without a cancel function; a known one keeps its entry |
| `Daemon.Daemon.DeleteWorkers` | daemon/daemon.go:634-641 | exactly the entries of these keys leave the table |
| `Daemon.Daemon.TakeOverStop` | daemon/daemon.go:1300-1315 | every worker of the table is cancelled and the table emptied, as the step `TakeOver` says |
| `WorkerIds.KeyLayout` | daemon/daemon.go:118-120 | a key is user, host and the two ports in decimal, with their separators |
| `WorkerIds.IdRoundTripExactly` | daemon/daemon.go:118-159 | a generated key parses back to its four fields if and only if the username has no `@` and the host no `:` |
| `WorkerIds.KeysInjective` | daemon/daemon.go:118-120 | keys are equal if and only if the fields are, for hosts without `@` |
| `WorkerIds.KeyUniqueExactly` | daemon/daemon.go:118-120 | no other fields share a worker's key if and only if neither its username nor its host has an `@` |
| `WorkerIds.KeysCollide` | daemon/daemon.go:118-120 | two different workers that share a key, one with an `@` in its username and one in its host |
| `WorkerIds.IdSelectsExactly` | daemon/daemon.go:173-175 | a worker's id selects that worker and no other if and only if its username has no `@` |
| `WorkerIds.PartialTargets` | daemon/daemon.go:130-182 | a user, a user on a host, or a user on a host and port select exactly the workers that agree in what is named; a port that is no number names nothing |
| `WorkerIds.CommandHitsOneWorker` | daemon/daemon.go:161-182 | on a table keyed by id a command on an id acts on that worker alone |
| `Session.PingPassesExactly` | base_tunnel/tunnel.go:555-580 | which replies pass the udp-ping, of any length, with any flags and for which protocols |
| `Session.EstablishedExactly` | base_tunnel/tunnel.go:382-425 | a tcp tunnel needs its tcp forward, a udp tunnel its udp forward, a dual-stack tunnel both |
| `Session.FailsExactly` | base_tunnel/tunnel.go:382-417 | the error is that of the first step that fails; for dual-stack the tcp forward comes first |
| `Session.EventsExactly` | base_tunnel/tunnel.go:457-499 | which heartbeats count as answered and which pings as failed |
| `Session.SurvivesExactly` | base_tunnel/tunnel.go:457-502 | the session is up if and only if every wake-up was an answered heartbeat and no two pings in a row failed before the server first refused the request |
| `Session.EndsExactly` | base_tunnel/tunnel.go:440-502 | the event that ends a session decides the error: user, connection, heartbeat or ping |
| `Session.WatchIsRight` | base_tunnel/tunnel.go:433-502 | the loop's bookkeeping is down if and only if a heartbeat went unanswered, two counted pings in a row failed, or the session was ended |
| `Session.NilIsTheUsersStop` | base_tunnel/tunnel.go:433-456 | a nil error if and only if the user's cancellation came while the session was up and was taken on the caller's context |
| `Session.StopEndsTheLoop` | base_tunnel/tunnel.go:433-456 | a user's stop ends the loop either way, with an error if the connection's context is taken |
| `Session.StopCanReturnAnError` | base_tunnel/tunnel.go:449-456 | a script in which a user's stop returns an error |
| `Session.KeepSession` | base_tunnel/tunnel.go:426-502 | runs on exactly while the session survives; nil exactly for a stop seen as one; every exit closes the connection and leaves the statistics offline |
| `Session.ConnectAndTunnel` | base_tunnel/tunnel.go:218-503 | the hook is called if and only if every needed forward was accepted; nil only for a user's stop; every return leaves the statistics offline and the connection closed; exactly one connection is counted if the handshake succeeded and one failure if the tunnel was not established |
| `Session.NilMeansCancelled` | daemon/daemon.go:1122-1128 | after a nil error the worker's context is cancelled, so the loop ends |
| `Session.RejectionExactly` | daemon/daemon.go:1143-1147 | a turn counts as a rejection if and only if it got to the forwards and the first that failed was refused |
| `Session.StreakIsNeverReset` | daemon/daemon.go:1119-1151 | the reject streak is the number of all rejections |
| `Session.StreakIsConsecutiveExactly` | daemon/daemon.go:1143-1151 | it is the number of rejections in a row if and only if no rejection was followed by an uncancelled turn that is not one |
| `Session.StreakOfTwo` | daemon/daemon.go:1143-1151 | a rejection, a failed dial and a rejection make a streak of two |
| `Session.RunWorker` | daemon/daemon.go:1101-1163 | the loop stops at the first cancelled turn with the streak as specified and the statistics offline |
| `WorkerStatus.AllAcceptedExactly` | base_tunnel/tunnel.go:382-425 | which forwards are accepted when a worker of each protocol reports |
| `WorkerStatus.OnlineStep` | daemon/daemon.go:1087-1138 | a worker reads as online from a report that marks it until its next start, return, panic or offline mark |
| `WorkerStatus.EndedStep` | daemon/daemon.go:1122-1163 | a worker ends on a return with its context cancelled, while it waits, or in a panic, and only then |
| `WorkerStatus.OnlineIsHonest` | daemon/daemon.go:1087-1138 | without shared configurations a worker is online only between acceptance of its forwards in the current call and the handling of its return |
| `WorkerStatus.HookMovesExactly` | daemon/daemon.go:1092-1094 | in every run, after a worker began, the hook of its configuration marks another one if and only if another worker with that configuration began since |
| `WorkerStatus.UpExactly` | daemon/daemon.go:1087-1138 | a worker has every forward accepted in its current call if and only if it reported and that call's return has not been handled |
| `WorkerStatus.ReportLiesExactly` | daemon/daemon.go:1092-1094 | a report makes the statuses dishonest if and only if another worker with the reporter's configuration began since the reporter did and the last of them has no report of its own standing |
| `WorkerStatus.AlwaysHonestExactly` | daemon/daemon.go:1087-1138 | a run never shows a worker online without a tunnel if and only if none of its reports is such a one |
| `WorkerStatus.SharedConfigurationsLie` | daemon/daemon.go:399-412 | a run in which a restart with the same configuration shows a worker online without a tunnel |
| `Lifetime.WorkerInfo.CheckWorkerLifetime` | daemon/daemon.go:1006-1036 | the method signals and remembers as specified |
| `Lifetime.RestartExactly` | daemon/daemon.go:1006-1036 | a tick signals if and only if the worker is online, configured and past its lifetime, and such a tick at least 30 s before and all since found the same byte count, whatever else the counter did |
| `Lifetime.ExaminedExactly` | daemon/daemon.go:1007-1015 | which ticks these are, in numbers |
| `Lifetime.RestartedWorkersWereIdle` | daemon/daemon.go:1022-1033 | where the counter never moves backwards, it did not move at any tick between the two |

## Left out

- FlowTable.CloseAllLeavesNothing: does not say that no socket is open when `closeAll` returns, because that is false (`CloseAllCanBeatAPump`); it names the sockets that may be.
- UdpProxy.Proxy.GetOrCreateFlow: another reader may store a flow of the same id while it dials, and nothing else happens meanwhile; every interleaving is in `FlowTable`.
- Delivery.EndToEnd: assumes each frame arrives once, gaps within the timeout, at most 16 datagrams partly received and no slot key shared by two of them; `LossyDelivery`, `SingleDelivery` and `MixedFragments` say what holds without these.
- Relay.V2Carries: reads everything at one time and from an empty table; any other timing, order and mixture is in `WireDelivery` and `SingleDelivery`.
- ShardOrder.FlowOrderOverShards: assumes that the flow's datagrams end in order, which two overlapping pumps of one id can break (`PumpsOvertake`); that this is also necessary is claimed where every frame arrives in time (`DecodedInOrderExactly`).
- FlowTable, WorkerTable, WorkerStatus: state machines on values, because their theorems are about interleavings; `UdpProxy` and `Daemon` have the same operations on mutable objects, one goroutine at a time.
- The flow table when `runUDPProxy` ends by cancellation, and in datagram mode, where readers may still run: only the case of exited readers is claimed.
- The idle shutdown time kept beside the worker map, and the status, password and time fields a register command updates.
- The daemon's command queue is unbounded here; a stop called from inside a command could block on a full queue.
- Byte counters, ids and times are unbounded integers where the program cannot reach their limits; frame fields, fragment ids and ports have their widths.
- The status a register command or a takeover writes, and the panic path of a worker beyond its status.
- Dialling, TLS, SSH and QUIC themselves, the internals of deflate, and the errors `flate` never returns on a memory buffer.
- The TCP forwarding of single connections, the QUIC data plane streams, the transport probe cache and the back-off table: little state of their own.
- Command line, JSON transport, process files, signals, logging, monitoring reports and packaging.
- The server's side, which is not part of this repository.
