# Verification of the gRPC sideband library

This project models the data path of the sideband library in Dafny and proves what its transports, its
connection hand-off and its moniker loop promise. `dafny verify dfyconfig.toml` checks everything.

The channel every transport is meant to be is `MessageFifo`: a queue of whole messages. The socket stream, the
RDMA link and the double buffer are step systems (every interleaving of the two ends and the network) whose
steps are each proved to be a step of that queue; the lockstep client and server run over two such queues, and
the server is proved to send what the read/write loop sends, and once more over two socket streams, where every
byte-level run is proved to be a run over the queues. Next to the step systems stand classes with the
fields and loops of the source. Their contracts are in terms of the same byte layouts, slots and pools, so that a
change in a loop body breaks a contract and a change in a step breaks an invariant.

| file | content |
|---|---|
| options, strategy, division | optional values, the kinds of transport, facts about division |
| bytes, decimal | memory, the 8-byte length prefix, decimal numbers |
| connection_id, url | identifiers and their width; the "host:port" address |
| fifo | the abstract message queue |
| sockets, socket_stream | the send and recv loops; client, TCP stream and server interleaved |
| rdma_pool, rdma_link, rdma | two-region pools; writer, network and reader interleaved; `RdmaSidebandDataImp` |
| messages | `WriteSidebandMessage` and `ReadSidebandMessage` over both paths; whole sessions |
| semaphore, connect, connector | the permit; the socket hand-off by steps; its static members |
| rdma_connect, rdma_handoff | pairing the two halves of an RDMA connection; any number of streams by steps |
| registry, registry_wakeup | the table of sessions; waiting for a registration, by steps |
| shared_memory, double_buffer | the shared buffers; two processes copying at the same time |
| ping_pong | two processes using the double buffer in turn |
| moniker_loop, lockstep | the server's read/write loop; client and server together |
| socket_lockstep | the same client and server over two socket streams, byte by byte |

Assumptions about the environment:

- TCP is a reliable ordered byte stream; `send` and `recv` move any number of bytes and report would-block, or
  move nothing, only finitely often (a peer that closes, after which `recv` returns 0 for ever, is excluded).
- A client connects once for each identifier, after it has been told the identifier.
- Through the double buffer a write begins only while fewer than two messages are unread, and a read only while
  one is. The library leaves this to its callers; what happens otherwise is `ThirdMessageOverwritesExactly`.
- Memory is sequentially consistent; `int64_t` is stored least significant byte first.
- A serialised message fits its buffer, with 8 bytes more where a length is stored in front.
- protobuf parsing inverts serialisation (`Messages.Inverse`); the size of a single value is a parameter, that of a
  reply follows from the length-delimited fields of the protobuf encoding.
- An acquisition of an RDMA sending region that fails leaves the descriptor it was given as it was.
- The RDMA library transmits the buffers of a session in the order they were queued. That queueing may fail is in
  `Rdma`; in `RdmaLink` it does not.
- Assertions are compiled out where a result says what happens after one has failed (registering an identifier twice):
  a compiled-in assertion stops the process there, and `emplace` leaves the table as it is.
- Calls of InitFromConnection are made one at a time in `RdmaHandoff`; the race of two is `AtLeastOneRegisters`.
- Server and client are separate processes with a session table each.

Where the code does not do what its interface promises, the exact condition is proved:

- identifiers are 13 characters until the counter has wrapped around (`LengthIs13Exactly`), and repeat after
  2^32 calls (`IdsCollideExactly`);
- an address is split into host and port exactly for a host without colons (`AddressSplitsExactly`);
- a message written over shared memory without a length, or over the double buffer with one, comes back exactly if
  the bytes of the message and of the memory around it are the message's length over and over again
  (`BareBytesReadBackExactly`, `DoubleBufferedPrefixExactly`);
- a third message in the double buffer leaves the first intact exactly as long as it agrees with it byte for byte
  (`ThirdMessageOverwritesExactly`);
- copying reads over RDMA use up both regions (`CopyReadsUseUpRegions`);
- two overlapping RDMA accept threads both call RegisterSidebandData with the pair, and both give back a permit,
  exactly when each stores before the other decides (`AtLeastOneRegisters`);
- connections that no client was told to make bring one more permit each (`PermitBalance`, `StraysServedExactly`);
- the read/write loop closes its session exactly if a cancellation or an unreadable message arrives, with enough
  values before it: the end of a session goes unnoticed, so otherwise the loop never ends, or runs into a missing
  value (`LoopClosesExactly`);
- insertions into the session table that notify nobody lose a wakeup exactly when somebody already waits
  (`QuietInsertionLosesWakeupExactly`);
- client and server can deadlock exactly if there are no readers (`Lockstep.DeadlockFreeExactly`,
  `SocketLockstep.DeadlockFreeExactly`).

## Model

| member | source | states |
|---|---|---|
| Bytes.PrefixRoundTrip | src/sideband_sockets.cc:298-322 | a length stored as an `int64_t` is loaded again as the same length, for every `int64_t` |
| Bytes.PrefixBytes | src/sideband_sockets.cc:298-306 | byte i of a stored length is digit i to the base 256 of the length, in two's complement |
| Bytes.PrefixBytesRoundTrip | src/sideband_sockets.cc:317-322 | conversely any eight bytes are the representation of exactly one length |
| Bytes.FrameReadsBack | src/sideband_rdma.cc:433-441 | memory beginning with length and payload yields that length at offset 0 and that payload at offset 8 |
| ConnectionId.Generator.NextConnectionId | src/sideband_data.cc:54-60 | the n-th call returns the n-th identifier, wrapping the 32-bit counter, within the 20-byte buffer |
| ConnectionId.Generator.ConnectIdLength | src/sideband_data.cc:47-50 | the handshake width is 13 |
| ConnectionId.LengthIs13 | src/sideband_data.cc:42-60 | the identifiers of the first 2^31 - 1 calls all have the handshake width |
| ConnectionId.LengthIs13Exactly | src/sideband_data.cc:47-60 | an identifier has the handshake width if and only if the counter is at least -999999999; otherwise it is one character too long |
| ConnectionId.OverlongId | src/sideband_data.cc:54-60 | call number 2^31 is the first whose identifier does not fit the handshake |
| ConnectionId.IdIsPrinted | src/sideband_data.cc:54-60 | an identifier is "ID:", then spaces up to ten characters, a minus sign if the counter is negative, and the decimal digits of its absolute value, each the quotient by its power of ten |
| Decimal.DigitAt | src/sideband_data.cc:54-60 | digit j of a printed number, counted from the right, is the one for the j-th power of ten |
| ConnectionId.FormatInjective | src/sideband_data.cc:54-60 | different counter values print differently, padding and sign included |
| ConnectionId.IdsCollideExactly | src/sideband_data.cc:54-60 | two calls return the same identifier if and only if their numbers differ by a multiple of 2^32 |
| ConnectionId.IdsDistinct | src/sideband_data.cc:54-60 | the first 2^31 - 1 identifiers are pairwise distinct |
| Url.SplitUrlString | src/sideband_sockets.cc:211-222 | tokens have no colon and join to the input less one trailing colon; there are none only for the empty input |
| Url.JoinInjective | src/sideband_sockets.cc:211-222 | a list of colon-free tokens is the only one with its join, so the contract of the split determines it |
| Url.AddressSplitsExactly | src/sideband_data.cc:326-343 | the address a server prints splits into exactly its host and port if and only if the host has no colon |
| Url.ClientAddress | src/sideband_sockets.cc:269-275 | a client connects to the configured host, or "localhost" if none is, and to the configured port in decimal, or "50055"; a host with a colon is cut there, and what follows it is taken for the port |
| MessageFifo.NextKeepsOrder | src/sideband_grpc.h:31-76 | a step of the channel adds one message behind, takes the oldest, or leaves the queue alone, and what was received stays a prefix of what was sent |
| Sockets.SocketSidebandData.WriteToSocket | src/sideband_sockets.cc:149-166 | whatever pieces send accepts, the stream grows by exactly the buffer, or by a proper prefix of it and the call fails; the loop terminates |
| Sockets.SocketSidebandData.ReceiveSome | src/sideband_sockets.cc:178-188 | the inner loop ends with something else than would-block and has stored exactly the bytes it consumed |
| Sockets.SocketSidebandData.ReadFromSocket | src/sideband_sockets.cc:170-200 | the next bytes of the stream fill the buffer in order, or fewer of them and the call fails; exactly the stored bytes are consumed; the loop terminates |
| Sockets.SocketSidebandData.ReadConnectionId | src/sideband_sockets.cc:226-231 | the id is the next 13 bytes, with zeros for what a failing read left out |
| Sockets.SocketSidebandData.SendUsageId | src/sideband_sockets.cc:143-144 | the usage id is appended to the stream byte for byte, or a proper prefix of it and the call fails |
| Sockets.SocketSidebandData.WriteLengthPrefixed | src/sideband_sockets.cc:298-306 | the frame (length, payload) is appended whole, or a proper prefix and the call fails |
| Sockets.SocketSidebandData.ReadLengthPrefix | src/sideband_sockets.cc:317-322 | the length is decoded from the next 8 bytes; a failure is not reported, its missing bytes count as zero |
| Sockets.SocketSidebandData.ReadFromLengthPrefixed | src/sideband_sockets.cc:286-313 | the asked number of bytes is stored and consumed, and the byte count set only on success |
| Sockets.SocketSidebandData.SerializeBuffer | src/sideband_data.cc:32-39 | allocated at full size on the first use and the same buffer afterwards |
| SocketStream.StepRefinesFifo | src/sideband_sockets.cc:143-200 | every step of client, network and server keeps "unread bytes are the encoding of what remains" and is a step of the message queue; a finished payload read delivers its head |
| SocketStream.PrefixIsLength | src/sideband_sockets.cc:310-322 | a completed prefix read has exactly the length of the oldest unread message, with that message next on the stream |
| SocketStream.RunDeliversInOrder | src/sideband_sockets.cc:226-322 | in every run under every fragmentation the server has read a prefix of the messages written, each whole and in order, and the client's id |
| SocketStream.ProgressUsesWork | src/sideband_sockets.cc:149-200 | every transfer or finished read lowers a natural number, so between two writes there are finitely many |
| SocketStream.StuckOnlyWhenDelivered | src/sideband_sockets.cc:149-200 | when no byte can move and no read can finish, everything sent has been received |
| SocketStream.RunDeliversEverything | src/sideband_sockets.cc:298-322 | such a run has delivered exactly the sequence of messages passed to WriteLengthPrefixed |
| SocketStream.IdentifierArrives | src/sideband_sockets.cc:226-231 | the id a session ends up with is the identifier the server handed out |
| RdmaPool.QueueConserves | src/sideband_rdma.cc:338-355 | queueing an acquired region appends its used bytes to the pending data, each region staying in exactly one place |
| RdmaPool.FillConserves | src/sideband_rdma.cc:239-248 | an arrival in a posted region appends its bytes to the pending data and moves only that region |
| RdmaPool.TransmittedConserves | src/sideband_rdma.cc:239-248 | transmission frees exactly the oldest queued region |
| RdmaPool.AcquireReceivedConserves | src/sideband_rdma.cc:359-370 | acquiring takes exactly the oldest filled region |
| RdmaPool.ReleaseConserves | src/sideband_rdma.cc:445-449 | releasing keeps every region in exactly one place, also when no region, or one that is not held, is released |
| RdmaLink.StepRefinesFifo | src/sideband_rdma.cc:433-472 | every step of writer, network and reader conserves both pools and is a step of the message queue: finishing a write pushes its message, parsing delivers the head |
| RdmaLink.ParseDeliversHead | src/sideband_grpc.h:34-41 | what a reader finds in the held region is the oldest unread message, whole |
| RdmaLink.RunDeliversInOrder | src/sideband_rdma.cc:433-472 | in every run each region is in exactly one state and the parsed messages are the first ones written |
| RdmaLink.StepsUseWork | src/sideband_rdma.cc:433-472 | every step but the start of a write lowers a natural number |
| RdmaLink.StuckOnlyWhenDelivered | src/sideband_rdma.cc:433-472 | with a live reader, if only a new write can happen, then one can, all regions are idle and every message has been parsed |
| RdmaLink.CopyReadsUseUpRegions | src/sideband_rdma.cc:402-418 | ReadLengthPrefix with ReadFromLengthPrefixed keeps a region each time: after two such reads nothing can be received any more |
| Rdma.RdmaSidebandDataImp.Write | src/sideband_rdma.cc:338-355 | on success exactly the bytes are queued behind all others and no region is kept; it fails if no region can be had, or if the region cannot be queued and then it stays acquired |
| Rdma.RdmaSidebandDataImp.AcquireOldest | src/sideband_rdma.cc:361-370 | the descriptor is emptied first; timeouts are retried until the oldest buffer is held or the session has failed |
| Rdma.RdmaSidebandDataImp.Read | src/sideband_rdma.cc:359-381 | consumes the oldest buffer: copied if it fits and released, or kept held when there is no destination; after a failure no region is described |
| Rdma.RdmaSidebandDataImp.WriteLengthPrefixed | src/sideband_rdma.cc:385-398 | queues the frame of the bytes as one buffer; when no region can be acquired, in the region that the last direct write still holds; if queueing fails nothing goes out and the region is held |
| Rdma.RdmaSidebandDataImp.BeginDirectWrite | src/sideband_rdma.cc:453-457 | acquires a region and points eight bytes into it; when none can be acquired, into the region of the write before |
| Rdma.RdmaSidebandDataImp.FinishDirectWrite | src/sideband_rdma.cc:461-472 | queues the frame of what was stored behind offset 8 and gives up the region, or fails and keeps it |
| Rdma.RdmaSidebandDataImp.BeginDirectReadLengthPrefixed | src/sideband_rdma.cc:433-441 | holds the oldest buffer and returns the length it starts with |
| Rdma.RdmaSidebandDataImp.FinishDirectRead | src/sideband_rdma.cc:445-449 | releases the held region and nothing else; after a failing read, nothing |
| Rdma.RdmaSidebandDataImp.ReadLengthPrefix | src/sideband_rdma.cc:411-418 | zero on failure, else the length of the oldest buffer, which stays held |
| Rdma.RdmaSidebandDataImp.ReadFromLengthPrefixed | src/sideband_rdma.cc:402-407 | copies the payload of the held region without releasing it |
| Messages.WriteSidebandMessage | src/sideband_grpc.h:58-76 | on either path the frame of the serialised message goes out behind everything written before, cut short exactly on a session that breaks; the size is returned in any case |
| Messages.ReadSidebandMessage | src/sideband_grpc.h:31-54 | on either path the oldest frame is consumed and parsed, RDMA regions are given back, and a session from which nothing comes any more yields the empty string parsed |
| Messages.CutPrefix | src/sideband_sockets.cc:317-322 | a length prefix cut short by a failing read decodes to no more than the true length, so the copy that follows stays in the buffer |
| Messages.WriteSession | src/sideband_sockets.cc:143-144 | the loops of a client together put exactly its id and the frames of its messages on the stream |
| Messages.ReadSession | src/sideband_grpc.h:31-54 | the loops of a server together recover exactly the id and the messages from such a stream, under every fragmentation, if the socket does not break |
| PermitSemaphore.Semaphore.Notify | src/sideband_semaphore.h:16-21 | one permit more |
| PermitSemaphore.Semaphore.Wait | src/sideband_semaphore.h:23-32 | returns with a permit that was there or came in while it slept; permits given out never exceed permits put in |
| PermitSemaphore.NoLostWakeup | src/sideband_semaphore.h:16-32 | with any threads, overtaking and spurious wakeups, no permit lies unused while all waiters sleep with no wakeup pending, and permits are conserved |
| SocketConnect.PermitIsConserved | src/sideband_sockets.cc:235-265 | in every run without stray connections the semaphore count plus the streams that hold the permit is 1 |
| SocketConnect.PermitBalance | src/sideband_sockets.cc:235-265 | in every run with any number of connections that nobody was told to make: free permits, streams waiting for their client with one, connections not yet accepted and the one at work add up to 1 plus the stray connections made |
| SocketConnect.StraysServedExactly | src/sideband_sockets.cc:249-265 | the permits given back for no stream are those of the stray connections made, less those still at the accept loop |
| SocketConnect.SessionsMatchRequests | src/sideband_sockets.cc:235-265 | a session registered under an id was connected by that id's client and has the latency flag and buffer size passed to the call that handed out that id |
| SocketConnect.SessionsStayUntilClosed | src/sideband_data.cc:283-322 | once registered, a stream has its session in the table if and only if it has not been closed; the hand-off of another stream never replaces or removes it |
| SocketConnect.RegistrationIsClean | src/sideband_data.cc:283-288 | the id being registered is never in the table, and equals the id in the slot |
| SocketConnect.HandoffNeverBlocks | moniker_src/moniker_service.cc:172-192 | while some stream is incomplete a step of the hand-off is possible |
| SocketConnect.HolderAdvances | src/sideband_sockets.cc:235-265 | while a stream has the permit each hand-off step is its next of ten, no other stream moves, and the last gives the permit back |
| SocketConnect.StrayConnectionDoublesPermit | src/sideband_sockets.cc:249-265 | every run in which the permit is free can go on with a stray connection that gets the stale slot, is registered if its identifier is free, and leaves two permits |
| SocketConnector.Connector.QueueSidebandConnection | src/sideband_sockets.cc:235-245 | takes one permit and stores flag, size and id of the request in the slot |
| SocketConnector.Connector.InitFromConnection | src/sideband_sockets.cc:249-265 | registers a session with the slot's settings under the id read from its socket and gives one permit back |
| RdmaConnect.RdmaConnector.QueueSidebandConnection | src/sideband_rdma.cc:275-289 | takes a permit, forgets both pending sessions and stores low latency for that strategy alone, size, wait flags and id |
| RdmaConnect.RdmaConnector.InitFromConnection | src/sideband_rdma.cc:303-334 | stores the session in its direction alone; registers exactly if everything awaited is then present, with both pending halves and the stored settings, and gives the permit back |
| RdmaConnect.AcceptedSinceQueueing | src/sideband_rdma.cc:275-334 | for any arrivals after queueing, the pending halves are the latest since then, with one registration and one permit per arrival that finds the pair complete |
| RdmaConnect.LatestExactly | src/sideband_rdma.cc:303-312 | the pending half of a direction is that of the last arrival in it, or missing if there was none |
| RdmaConnect.RegistersOnceExactly | src/sideband_rdma.cc:303-334 | a request is registered exactly once if and only if its last awaited half is the last session to arrive |
| RdmaConnect.EpisodeRegistersOnce | src/sideband_rdma.cc:275-334 | with whole calls one at a time and one arrival per awaited direction, a stream is registered once with exactly its own sessions and its permit given back, for all wait flags that await something |
| RdmaConnect.AtLeastOneRegisters | src/sideband_rdma.cc:303-334 | under every interleaving of the two accept threads RegisterSidebandData is called with the pair, precisely the two sessions; by both, and with two permits given back, if and only if each thread stored before the other decided |
| RdmaConnect.WholeCallIsAccept | src/sideband_rdma.cc:303-334 | a thread that nobody interrupts does in its steps what a whole call does |
| RdmaConnect.BothMayRegister | src/sideband_rdma.cc:303-334 | every request has an interleaving with two such calls and a permit too many |
| RdmaHandoff.PermitIsConserved | src/sideband_rdma.cc:275-334 | in every run of any number of streams, their clients and both accept threads, the semaphore count plus the streams that hold the permit is 1 |
| RdmaHandoff.EveryStreamRegistersOnce | src/sideband_rdma.cc:275-334 | in every such run each registration is that of a stream of its own, with the settings and identifier of its call and precisely the sessions its client connected, and the complete streams are those registered |
| RdmaHandoff.RegisteredIdsAreDistinct | src/sideband_data.cc:283-288 | in every such run, with calls of InitFromConnection one at a time, the duplicate-id assertion never fires |
| RdmaHandoff.HandoffNeverBlocks | src/sideband_rdma.cc:275-334 | while some stream is incomplete a step of the hand-off is possible |
| RdmaHandoff.HolderAdvances | src/sideband_rdma.cc:275-334 | while a stream has the permit each hand-off step is its own and gets it on, within twelve steps, and the last gives the permit back |
| RdmaHandoff.StoresAreQueue | src/sideband_rdma.cc:275-289 | the permit and the seven assignments, step by step, are the call of QueueSidebandConnection |
| Registry.PerformKeepsValid | src/sideband_data.cc:283-322 | every key maps to the live session with that usage id; register adds and close removes exactly the one session |
| Registry.TokenLivesUntilItsClose | src/sideband_data.cc:232-239 | a token looked up stays live and registered until its own close, whatever else happens |
| Registry.SidebandRegistry.GetOwnerSidebandDataToken | src/sideband_data.cc:232-239 | returns at the first moment the id is registered, with the live session registered under it |
| Registry.SidebandRegistry.RegisterSidebandData | src/sideband_data.cc:283-291 | adds the session under its unused id |
| Registry.SidebandRegistry.CloseSidebandData | src/sideband_data.cc:313-322 | removes and deletes exactly that session |
| RegistryWakeup.RunsLoseNoWakeup | src/sideband_data.cc:232-291 | in every interleaving a waiter sleeps while its id is in the table only when the mutex owner is just about to notify it, and returned tokens belong to the id asked for |
| RegistryWakeup.StepKeepsEntries | src/sideband_data.cc:283-322 | a session stays in the table until its own close, and an entry that is new is that of the thread that registers it |
| RegistryWakeup.StepKeepsCalls | src/sideband_data.cc:232-291 | the id a thread waits for, and the session a thread registers, are those it was called with |
| RegistryWakeup.WaiterCanGoOn | src/sideband_data.cc:232-239 | a waiter whose id is in the table can take the free mutex, and its next test returns that session |
| RegistryWakeup.RegistrationWakesEveryone | src/sideband_data.cc:283-291 | a registration that gets the mutex runs through, and leaves its session in the table and nobody asleep |
| RegistryWakeup.QuietInsertionLosesWakeupExactly | src/sideband_data.cc:202-211 | an insertion without notification loses a wakeup if and only if a thread already sleeps for that id |
| SharedMemory.SharedMemorySidebandData.Write | src/sideband_shared_memory.cc:126-135 | bytes are stored at offset 0, the rest is kept; fails only without a mapping |
| SharedMemory.SharedMemorySidebandData.WriteLengthPrefixed | src/sideband_shared_memory.cc:152-163 | the frame is stored at offset 0 and the rest of the buffer is kept |
| SharedMemory.SharedMemorySidebandData.BeginDirectReadLengthPrefixed | src/sideband_shared_memory.cc:195-204 | the stored length and a pointer behind it |
| SharedMemory.LastMessageReadsBack | src/sideband_shared_memory.cc:152-204 | after any sequence of prefixed writes all readers find the last message, and bytes beyond all messages are untouched |
| SharedMemory.BareBytesReadBackExactly | src/sideband_shared_memory.cc:215-225 | bytes stored without a length come back as a message if and only if they, and the eight old bytes behind them, are the representation of their length over and over again |
| SharedMemory.DirectMessageIsLost | src/sideband_grpc.h:61-66 | so a message sent through shared memory is lost whenever its first byte is not the low byte of its size |
| SharedMemory.DoubleBufferedSharedMemorySidebandData.Write | src/sideband_shared_memory.cc:255-260 | stores into the current buffer and goes on to the other, also on failure |
| SharedMemory.DoubleBufferedSharedMemorySidebandData.Read | src/sideband_shared_memory.cc:264-269 | reads the current buffer and goes on to the other, also on failure |
| SharedMemory.DoubleBufferedSharedMemorySidebandData.WriteLengthPrefixed | src/sideband_shared_memory.cc:273-287 | stores the length and then the payload over it; goes on only on success |
| SharedMemory.DoubleBufferedPrefixExactly | src/sideband_shared_memory.cc:273-303 | such a message comes back if and only if its bytes, and the old bytes between the ends of the length and of the frame, are the representation of its length over and over again |
| SharedMemory.DoubleBufferedPrefixMostlyLost | src/sideband_shared_memory.cc:273-303 | so the empty message always comes back, and none whose first byte is not the low byte of its size |
| DoubleBuffer.StepRefinesFifo | src/sideband_shared_memory.cc:229-269 | every byte-level step of two concurrent copies is a step of a queue of at most two messages |
| DoubleBuffer.ReaderKeepsInv | src/sideband_shared_memory.cc:264-269 | a completed read has returned the oldest unread message intact |
| DoubleBuffer.RunReadsWhatWasWritten | src/sideband_shared_memory.cc:229-269 | in every interleaving of half-finished copies the r-th read returns the r-th written message |
| DoubleBuffer.StuckOnlyWhenDelivered | src/sideband_shared_memory.cc:255-269 | when nothing but another write can begin, every message written has been read |
| DoubleBuffer.WriterStandsOnReadersBuffer | src/sideband_shared_memory.cc:255-269 | both sides are at the same buffer if and only if the number of unread messages is not one |
| DoubleBuffer.ThirdMessageOverwritesExactly | src/sideband_shared_memory.cc:255-269 | at every byte of a write that begins with two messages unread, the older one is intact if and only if the new bytes agree with it |
| PingPong.Put | src/sideband_shared_memory.cc:255-340 | copying, direct and length-prefixed writes all store at the start of the current buffer and go on to the other |
| PingPong.Take | src/sideband_shared_memory.cc:264-340 | copying and direct reads return what the current buffer has at the start, or behind the length, and go on to the other |
| PingPong.Play | src/sideband_shared_memory.cc:235-340 | for any number of rounds, each operation copying or direct, every request goes through buffer A and every reply through B, both sides stand on A after each round, and unprefixed readers get what was written |
| MonikerLoop.InitiateMonikerList | moniker_src/moniker_service.cc:60-86 | readers and writers are in the order of the monikers, each with its moniker's instance and the function registered under its source, or null |
| MonikerLoop.Session.RunSidebandReadWriteLoop | moniker_src/moniker_service.cc:104-131 | when some message ends the loop, it does exactly the actions specified for the requests before it, reads nothing behind it and then closes the session |
| MonikerLoop.LoopClosesExactly | moniker_src/moniker_service.cc:104-131 | the loop closes if and only if a cancellation or an unreadable message comes with enough values before it; it never stops if and only if neither comes and there are no writers; with writers it then reads a value that is not there, right after the last message |
| MonikerLoop.RoundsInOrder | moniker_src/moniker_service.cc:110-167 | the actions are one round (writes, reads, reply) per request before the first cancellation, in order, and one close at the end; nothing runs after a cancellation |
| MonikerLoop.WriterGetsItsColumn | moniker_src/moniker_service.cc:112-116 | writer i is given exactly column i of the requests before the first cancellation, in order |
| MonikerLoop.RepliesHoldAllReaders | moniker_src/moniker_service.cc:117-129 | there is a reply to every request before the first cancellation; value i of reply k is what reader i yields for request k; there is none without readers |
| MonikerLoop.LogHasWriters | moniker_src/moniker_service.cc:112-116 | the first actions of round k are the writers in list order, each at its own endpoint with the value at its place in request k |
| MonikerLoop.LogHasReaders | moniker_src/moniker_service.cc:117-126 | then come the readers in list order, each at its own endpoint with what it yields for request k |
| MonikerLoop.LogHasReplies | moniker_src/moniker_service.cc:117-130 | then comes the reply: in order, the results of the readers that ran directly before it |
| MonikerLoop.LogLength | moniker_src/moniker_service.cc:104-167 | the log is these rounds, one for each request before the first cancellation, and the close behind them |
| MonikerLoop.ReplyHasBytes | moniker_src/moniker_service.cc:120-129 | a reply with values has at least four bytes, so the loop never takes its size for a failure |
| Lockstep.OneMessageInFlight | moniker_src/moniker_service.cc:104-131 | with readers, at most one message is in flight, requests are at most one ahead of replies, and value i of reply k is what reader i yields for request k |
| Lockstep.RequestsAreTheClients | moniker_src/moniker_service.cc:104-131 | what is sent to the server is what the client asked for, in its order |
| Lockstep.NeverDeadlocked | moniker_src/moniker_service.cc:104-131 | with readers, no reachable state is stuck unless the stream was cancelled and closed |
| Lockstep.DeadlockFreeExactly | moniker_src/moniker_service.cc:104-131 | no run deadlocks if and only if there are readers |
| Lockstep.ServerRunsTheLoop | moniker_src/moniker_service.cc:104-131 | in every run the replies sent are those that the read/write loop makes of the requests received |
| SocketLockstep.StepSimulates | src/sideband_grpc.h:31-76 | every byte sent or received, read finished or call made on the two sockets is a step of the lockstep system, or none |
| SocketLockstep.RunSimulates | src/sideband_grpc.h:31-76 | every byte-level run of client and server is a run over the two message queues |
| SocketLockstep.RepliesAnswer | moniker_src/moniker_service.cc:104-131 | over sockets, at most one message is under way, and the k-th message the client has read is the serialised reply of the readers to its k-th request |
| SocketLockstep.NeverStuck | moniker_src/moniker_service.cc:104-131 | with readers, and with calls that block until their bytes have moved, no reachable byte-level state is stuck before the cancellation has been read |
| SocketLockstep.StepsUseWork | moniker_src/moniker_service.cc:104-131 | every step but the start of a client's call lowers a lexicographic measure, so each request is dealt with after finitely many |
| SocketLockstep.DeadlockFreeExactly | moniker_src/moniker_service.cc:104-131 | over sockets no run gets stuck if and only if there are readers |

## Left out

- Opening, accepting and configuring sockets, mapping memory, the RDMA library, thread affinity and logging: foreign calls; their effects on bytes, regions and connections are modelled.
- protobuf and gRPC: a pair of functions and a size.
- The C wrappers in src/sideband_data.cc:64-168: they forward.
- `InitOwnerSidebandData` and `InitClientSidebandData` beyond the identifier they hand out and the silent insertion: they select a constructor.
- `RdmaSidebandDataImp::BeginDirectRead` and the raw direct reads of shared memory: the prefixed forms with another offset.
- Session ids of shared memory: the constant "TestBuffer" for every owner, so uniqueness does not hold for them.
- The RDMA address in `GetConnectionAddress`: the socket address always replaces it.
- The branch of `RunSidebandReadWriteLoop` without an initial write: it indexes an empty list of values.
- `StreamRead`, `StreamWrite` and `StreamReadWrite`: the same loops over gRPC streams.
- `send` and `recv` on negative byte counts: the source asserts they do not occur.
- Rdma.RdmaSidebandDataImp.Read: region memory is a sequence in the pool, not a heap array, so aliasing between an application's pointer and the region is not captured.
- PermitSemaphore.Semaphore.Wait: other threads' calls while the caller sleeps are one arbitrary change of the counters; how threads interleave is in `NoLostWakeup`.
- SocketConnect.SessionsMatchRequests: it is about fewer than 2^31 streams in a process; beyond that the identifiers no longer fit the handshake.
- Windows branches: the same calls under other names.
- DoubleBuffer.RunReadsWhatWasWritten: the reader asks for exactly the length of the message, since the raw buffers store none.
- Messages.WriteSidebandMessage: over sockets and RDMA only; what becomes of a message sent over shared memory is stated by `BareBytesReadBackExactly` and `DirectMessageIsLost`.
- Lockstep.DeadlockFreeExactly: what the endpoints return may depend on the round and the request; where it comes from is not modelled.
- SharedMemory.SharedMemorySidebandData.Write: when `mmap` itself fails, the source keeps MAP_FAILED, which is not null, and goes on to write through it; the model's missing mapping stands for the failures before that.
- SocketConnect.PermitBalance: a stray connection sends some identifier; one that sends anything else is served the same way.
- SocketLockstep.NeverStuck: over sockets; over RDMA, `RdmaLink.StuckOnlyWhenDelivered` is about each direction by itself.
- MonikerLoop.LoopClosesExactly: a peer that closes its socket in good order is not a failing session: there `recv` returns 0 for ever and the read itself does not end.
- PingPong.Play: a length-prefixed reader looks behind the first eight bytes, so for it only the buffer is stated; what it finds there is `DoubleBufferedPrefixExactly`.
