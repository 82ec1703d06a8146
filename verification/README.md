# Verified model of libatbus

This project models the core of libatbus, a bus that passes messages between processes over streams and
shared memory, and proves what its parts promise each other. To verify: `dafny verify dfyconfig.toml`.

* **Checksums** (`shift_register`, `crc32`, `crc64`): the table-driven checksums are division of the data, bit
  by bit, by the polynomial, and damage inside one checksum's width of consecutive bytes always changes them.
* **Buffers** (`vint`, `block_list`, `circle_layout`, `buffers`, `static_buffer`, `dynamic_buffer`,
  `buffer_manager`, `lockstep`): variable-length integers, and the double-ended block manager in both of its
  modes. The static mode keeps its blocks inside one circular region; both modes are proved against the same
  plain list with a cost account.
* **Streams** (`splitting`, `framing`, `stream_receiver`, `segmentation`, `stream_sender`): messages travel as
  checksum, length and payload. However the stream is cut into reads, the callbacks are those of the frames
  complete so far; each accepted send is called back exactly once with its own payload, in whatever order the
  platform reports completions.
* **Shared memory** (`ring`, `mem_blocks`, `mem_steps`, `mem_reader`, `mem_channel`, `mem_concurrent`,
  `mem_progress`): the ring of nodes. Run one operation at a time it is a bounded first-in-first-out queue as long as
  operation numbers do not come round, and the recovery from that is modelled too; with many writers and one
  reader, each step interleaved at will, the messages received are the first of those sent and the others are still
  in the ring, and from every reachable state all of them can still be received.
* **Bus** (`domains`, `endpoint_tables`, `node_tables`, `routing`, `routes`): power-of-two id domains, the
  ordered tables of endpoints, what a node lets in, and the way a data request takes: up, across at most once,
  down.
* **Reset** (`reset_graph`): endpoints and connections that take each other down.

Objects that the source updates in place are classes here (`BufferManager`, `Receiver`, `Sender`, `MemChannel`,
`Node`, `Message`, `Endpoint`, `Connection`); their methods are proved against functions, and the laws are
lemmas about those functions.

The whole-run results come together in a few members. `Segmentation.ReadAll` and `Segmentation.BetweenReads`
carry the stream theorem; `StreamReceivers.Receiver.Read` states what a read does for bytes from any sender, as
long as the body lengths they announce keep the 64-bit sums of `src/channel_io_stream.cpp:365` and `:394` from
wrapping: there a connection survives exactly when no complete header announces a body that cannot be spilled
(`StreamReceivers.Space.Oversized`). `MemConcurrent.ReceivedIsPrefix` is the theorem over every interleaving,
and `MemProgress.AllCanArrive` says that none of them is a dead end. `Routes.VoyageShape`, `Routes.VoyageBounded`,
`Routes.Arrives` and `Routes.VoyageArrives` are the routing theorems over networks, and `Routing.TargetIff`,
`Routing.RefusedIff` and `Routing.RequestIff` those over single nodes with any tables.

Six facts about the code are worth knowing:

* A body that respects `recv_buffer_limit_size` can still fail to fit a receive block: four checksum bytes are
  added, and in static mode the block header and the padding too. `StreamReceivers.Space.Fits` says which bodies
  fit. A stream is safe under every cutting into reads exactly when each body that is not empty fits
  (`Segmentation.AnyCutting`, with `Segmentation.ReadAll`); otherwise the run `Segmentation.ReadToHeader` ends the
  connection. A receiver with a node's default settings is a case: limit and buffer size are both the message
  size, 65536, over two static blocks (`src/atbus_node.cpp:1303-1304`, `src/channel_io_stream.cpp:138`), and a body
  of 65509 to 65536 bytes ends the connection (`Segmentation.DefaultSpace`, `Segmentation.LimitIsNotEnough`). The
  peer that sends it must have a larger `send_buffer_size`: under the default (`src/atbus_node.cpp:76`) request
  record, checksum and length count too, and a sender refuses such a body with a buffer limit.
* `remove_endpoint` may leave the brother or child whose id it is given in the table, in two ways
  (`NodeTables.RemovedIff`; `NodeTables.GetIsScan` says the same of the lookup). A brother that registered before
  the father can be left outside the father's domain, and then the answer is that its id is invalid
  (`NodeTables.StrandedBrother`). A child can bear the id of a father added later, whose test comes first; then the
  father is dropped (`NodeTables.ShadowedChild`). The second way takes direct calls of the public `add_endpoint`:
  over runs of registrations and removals no brother or child bears the father's id (`NodeTables.RunNode`), so that
  only stranded brothers stay (`NodeTables.RemovedUnlessStranded`).
* The first hop of a node's own data is taken whatever the hop limit is, so the bound is the limit or one,
  whichever is larger. A voyage exceeds the limit exactly when the limit is zero and the first send succeeded
  (`Routes.VoyageBounded`; `Routes.OneHopForFree` is one). The comment beside the default in
  `src/atbus_node.cpp:66` speaks of 8 hops where the limit is 16; the model follows the code.
* A send to a brother that fails with the connection in place is retried through the father, and the node has
  then put itself on the router list twice. So a way that is within the hop limit may be cut off:
  `Routes.AroundTheBrother` is a network whose tree links work, with a way of three hops that a request does not
  complete under a limit of three. `Routes.Arrives` has the exact condition. Data of a node's own gets no retry
  (`Routes.VoyageArrives`).
* A reader of the shared memory takes two neighbouring blocks for one exactly when they bear the same 32-bit
  operation number (`MemReaders.ReadableIff`). Then it loses them, and the next block too if that fits the caller's
  buffer (`MemReaders.Received`, `MemReaders.MergedAreLost`). Refused sends use numbers
  up as well, so a reader may lose messages without ever being late for one (`MemChannels.NumbersComeRound`). While
  fewer than a period of numbers have been fetched since the oldest block was begun, nothing is lost
  (`MemReaders.RecentDiffers`, `MemReaders.ReceivedIff`).
* Whatever the operations, the subtraction that clamps the cost of a buffer at zero never clamps
  (`BlockList.TakeKeepsAccount`).

## Model

| member | source | states |
|---|---|---|
| Crc32.TableIsByteStep | src/detail/crc32.cpp:7-72 | every table entry is the byte divided bit by bit by the polynomial of section 8 of RFC 1952 |
| Crc32.UpdateIsByteStep | src/detail/crc32.cpp:74-82 | one table lookup of the loop divides one byte into the state |
| Crc32.Crc32 | src/detail/crc32.cpp:74-82 | the loop computes the remainder of the data, bit by bit, from any start value |
| Crc32.TableWalkIsRemainder | src/detail/crc32.cpp:74-82 | walking the table over any data is division by the polynomial |
| Crc32.BurstChangesRemainder | src/detail/crc32.cpp:74-82 | data that differ only inside four consecutive bytes have different checksums, and only then |
| Crc64.TableIsByteStep | src/detail/crc64.cpp:12-141 | every table entry is the byte divided bit by bit by the 64-bit polynomial |
| Crc64.UpdateIsByteStep | src/detail/crc64.cpp:143-153 | one table lookup of the loop divides one byte into the state |
| Crc64.Crc64 | src/detail/crc64.cpp:143-153 | the loop computes the remainder of the data, bit by bit |
| Crc64.BurstChangesRemainder | src/detail/crc64.cpp:143-153 | data that differ only inside eight consecutive bytes have different checksums |
| ShiftRegister.BurstDetected | src/detail/crc32.cpp:74-82 | for any shift register with the laws of exclusive or: a burst no wider than the register changes the result |
| Vint.ReadVint | src/detail/buffer.cpp:39-61 | the reading loop gives the value and the bytes used, zero bytes if the number does not end in the buffer |
| Vint.WriteVint | src/detail/buffer.cpp:63-91 | writes the base-128 form, or returns zero exactly when the buffer is shorter than the digits, and touches nothing behind them |
| Vint.ReverseInPlace | src/detail/buffer.cpp:85-88 | the final reversal of the bytes written, and nothing else |
| Vint.RoundTrip | src/detail/buffer.cpp:39-91 | reading what was written, followed by any bytes, gives the value and its length, for every 64-bit value |
| Vint.PrefixFails | src/detail/buffer.cpp:39-61 | no proper prefix of a written number is read as a number |
| Buffers.PaddingByRemainder | src/detail/buffer.cpp:183-190 | sizes are rounded up to the next multiple of the word size |
| BlockList.TakeKeepsAccount | src/detail/buffer.cpp:494-581 | popping keeps the account equal to the live blocks and their unread bytes; the saturating subtraction never saturates |
| BlockList.TakeSays | src/detail/buffer.cpp:494-581 | popping takes as many bytes as were asked for and are there, from the account too; a block goes exactly if asked and nothing of it is left; no other block changes |
| BlockList.PutKeepsAccount | src/detail/buffer.cpp:263-299 | pushing keeps the account exact, and a push that was not refused stays within the limits |
| BlockList.RefusesIff | src/detail/buffer.cpp:263-299 | the limits refuse a push exactly when it would make more blocks, or more unread bytes, than a limit allows |
| BlockList.RunKeepsAccount | src/detail/buffer.cpp:263-307 | over every run of pushes and pops, pushes refused for lack of room included, the account is exact and no nonzero limit is exceeded |
| CircleLayout.LayoutDisjoint | src/detail/buffer.cpp:331-492 | in every reachable static layout the live blocks are in bounds and pairwise disjoint |
| CircleLayout.BehindIsGap | src/detail/buffer.cpp:358-405 | the room behind the newest block is every gap at the two places that meets no live block and does not end where the oldest starts |
| CircleLayout.BeforeIsGap | src/detail/buffer.cpp:442-486 | the room before the oldest block is every gap at the two places that meets no live block and leaves the first free byte out |
| CircleLayout.LayoutPushBack | src/detail/buffer.cpp:358-405 | a block placed behind the newest, or at the start of the region, leaves one run, or two runs with a gap |
| CircleLayout.LayoutPushFront | src/detail/buffer.cpp:442-486 | the same for a block placed before the oldest, or at the end of the region |
| CircleLayout.LayoutPopBack | src/detail/buffer.cpp:494-538 | taking the newest block away keeps the layout |
| CircleLayout.LayoutPopFront | src/detail/buffer.cpp:540-581 | taking the oldest block away keeps the layout |
| Buffers.PushedOk | src/detail/buffer.cpp:331-492 | a push into free room keeps the region sound: header, index, tail slot and all other blocks |
| Buffers.RoomBackIff | src/detail/buffer.cpp:358-405 | there is a place behind the newest block exactly under the comparisons of the code |
| Buffers.RoomFrontIff | src/detail/buffer.cpp:442-486 | there is a place before the oldest block exactly under the comparisons of the code |
| Buffers.FreedOk | src/detail/buffer.cpp:511-532 | freeing a block at an end keeps the region sound and resets the index when it was the last |
| Buffers.EndsNamed | src/detail/buffer.cpp:313-329 | the index slots at both ends name the oldest and the newest block, and the tail slot is set whenever there is one |
| StaticBuffers.StaticPushBack | src/detail/buffer.cpp:331-411 | adds a block behind all others, or refuses exactly when there is no room, and changes no other block |
| StaticBuffers.StaticPushFront | src/detail/buffer.cpp:413-492 | adds a block before all others, or refuses exactly when there is no room, and changes no other block |
| StaticBuffers.StaticPop | src/detail/buffer.cpp:494-581 | takes what the plain list takes at the same end and frees the same block |
| StaticBuffers.StaticWrite | src/detail/buffer.cpp:94-122 | bytes stored through the pointer of a block change that block alone |
| DynamicBuffers.DynamicPush | src/detail/buffer.cpp:604-628 | a new block joins the list at the end asked for |
| DynamicBuffers.DynamicPop | src/detail/buffer.cpp:630-690 | takes what the plain list takes |
| BufferManagers.BufferManager.constructor | src/detail/buffer.cpp:201-205 | starts empty, in dynamic mode and without limits |
| BufferManagers.BufferManager.SetLimit | src/detail/buffer.cpp:215-223 | limits can be set in dynamic mode only |
| BufferManagers.BufferManager.Reset | src/detail/buffer.cpp:696-716 | gives everything back and returns to dynamic mode without limits |
| BufferManagers.BufferManager.SetMode | src/detail/buffer.cpp:718-733 | a static region of the padded size with one spare index slot, or dynamic mode for zero sizes |
| BufferManagers.BufferManager.Peek | src/detail/buffer.cpp:229-261 | where the next bytes of the block at an end go, with its used and unread sizes |
| BufferManagers.BufferManager.Push | src/detail/buffer.cpp:263-299 | the list with a new empty block at that end and a charged account; unchanged exactly when a limit would be exceeded or there is no room |
| BufferManagers.BufferManager.Pop | src/detail/buffer.cpp:301-307 | in both modes the list and the account of the plain pop |
| BufferManagers.BufferManager.Write | src/detail/buffer.cpp:94-96 | a caller fills the block at an end and nothing else |
| BufferManagers.PointersDistinct | src/detail/buffer.cpp:331-492 | no two live blocks share an address |
| BufferManagers.EmptyRoom | src/detail/buffer.cpp:348-369 | an empty region takes a block exactly when header and padded size fit |
| Lockstep.Perform | src/detail/buffer.cpp:263-307 | one operation on either mode is the step of the plain list, and a push for which the region has no room changes nothing |
| Lockstep.RunBoth | src/detail/buffer.cpp:331-690 | static and dynamic mode give the same codes, block order, sizes and bytes up to the first push that the limits allow and the region has no room for, which gets the code of a full buffer |
| Lockstep.RunOne | src/detail/buffer.cpp:263-307 | a run on one manager of either mode that goes on after refusals: list and account are the plain ones, every refusal for lack of room met memory of the same shape that held the plain list and had none, and the account stays exact and within the limits |
| Lockstep.MetAt | src/detail/buffer.cpp:331-492 | at each operation of such a run the memory held what the operations before it leave, and the operation was refused for lack of room exactly when there was none |
| Splitting.SplitResumes | src/channel_io_stream.cpp:352-415 | cutting a stream into frames may stop anywhere and go on with what is left, for any self-delimiting header |
| Framing.LoadStore | src/channel_io_stream.cpp:367-369 | a checksum stored as four bytes is loaded as it was |
| Framing.HeaderStable | src/channel_io_stream.cpp:352-360 | a header once complete is not changed by the bytes that follow |
| Framing.ParseWireAll | src/channel_io_stream.cpp:352-415 | parsing undoes framing for any list of frames |
| Framing.ParsePrefix | src/channel_io_stream.cpp:352-415 | the first bytes of a framed stream parse to its whole frames and a proper prefix of the next |
| Framing.HeaderBytes | src/channel_io_stream.cpp:352-360 | an incomplete header has at most 13 bytes |
| Framing.SentIsDelivered | src/channel_io_stream.cpp:363-389 | a sender's frame is delivered as it was, with an invalid size exactly if it is over the limit and else with success |
| Framing.DamageIsReported | src/channel_io_stream.cpp:367-373 | a payload damaged inside four consecutive bytes is reported as bad data |
| StreamReceivers.Check | src/channel_io_stream.cpp:365-376 | the code of a callback: bad checksum first, then the size limit, then success |
| StreamReceivers.FillStep | src/channel_io_stream.cpp:417-437 | bytes that arrive for a block complete its frame exactly when they fill it |
| StreamReceivers.CutStep | src/channel_io_stream.cpp:365-391 | one frame delivered from the head buffer is one frame of the parse |
| StreamReceivers.SpillBytes | src/channel_io_stream.cpp:392-401 | checksum and partial body moved into a block hold the frame begun |
| StreamReceivers.Receiver.constructor | src/channel_io_stream.cpp:653-657 | a new connection has empty buffers and the space its settings give it |
| StreamReceivers.Receiver.Alloc | src/channel_io_stream.cpp:262-299 | offers the rest of the head buffer, or the unread part of the block being filled, and does so even after the end of the connection |
| StreamReceivers.Receiver.CutSmall | src/channel_io_stream.cpp:347-391 | every frame whole in the head buffer gets its callback, and the rest starts where the parse says; announced lengths keep the sum of line 365 below 2^64 |
| StreamReceivers.Receiver.Spill | src/channel_io_stream.cpp:392-410 | a frame begun goes into a block exactly when its body fits the space |
| StreamReceivers.Receiver.ParseHead | src/channel_io_stream.cpp:347-416 | delivers, spills and shifts so that what is kept is what the parse leaves |
| StreamReceivers.Receiver.ReadHead | src/channel_io_stream.cpp:344-475 | a read into the head buffer, including the end of the connection for a frame that cannot be spilled |
| StreamReceivers.Receiver.ReadBlock | src/channel_io_stream.cpp:417-457 | a read into the block being filled |
| StreamReceivers.Receiver.DeliverFull | src/channel_io_stream.cpp:425-457 | a full block is delivered and given back, any other stays |
| StreamReceivers.Receiver.Read | src/channel_io_stream.cpp:301-476 | for bytes from any sender, announced lengths small enough that the 64-bit sums do not wrap: the callbacks are those of the frames now complete, and the connection lives on exactly if the next frame can be taken in |
| Segmentation.ParseResumes | src/channel_io_stream.cpp:301-476 | what a read makes complete are the next frames of the stream |
| Segmentation.RestOversized | src/channel_io_stream.cpp:392-415 | after any number of bytes of a framed stream the connection is at an end exactly when the whole header of a frame has come whose body is not complete and does not fit |
| Segmentation.AnyCutting | src/channel_io_stream.cpp:392-415 | no cut through the stream ends the connection if and only if every body that is not empty fits the space |
| Segmentation.FirstUnfit | src/channel_io_stream.cpp:392-415 | a stream that is not safe has a first frame that does not fit, behind frames that do |
| Segmentation.ReachedStep | src/channel_io_stream.cpp:301-476 | one more read of any size leads from the callbacks of the frames complete before to those complete now |
| Segmentation.BetweenReads | src/channel_io_stream.cpp:276-298 | between reads there are at most 13 bytes in the head buffer and no block, or one partly filled block and an empty head buffer, so the next read is offered some space |
| Segmentation.ReadOnce | src/channel_io_stream.cpp:301-476 | a read of any size the allocator offered keeps the callbacks those of the whole frames |
| Segmentation.ReadAll | src/channel_io_stream.cpp:262-476 | over any cutting of a framed stream whose nonempty bodies fit into nonempty reads the callbacks are those of the frames complete so far, in order |
| Segmentation.ReadToHeader | src/channel_io_stream.cpp:301-476 | a run over such a stream that ends the connection at that frame's header, after the callbacks of the frames before it |
| Segmentation.PayloadsArrive | src/channel_io_stream.cpp:301-476 | for frames of a sender callback i carries payload i, with an invalid size exactly if that is over the limit and else with success |
| Segmentation.DefaultSpace | src/atbus_node.cpp:1303-1304 | a receiver with a node's default settings holds in a block exactly the bodies of up to 65508 bytes, fewer than the limit allows |
| Segmentation.LimitIsNotEnough | src/channel_io_stream.cpp:392-415 | a run: under those settings a message within the limit, but longer, ends the connection with an invalid size and the bytes behind its header |
| StreamSenders.PutTakeUndone | src/channel_io_stream.cpp:1453-1459 | taking back a block pushed at the same end leaves list and account as they were |
| StreamSenders.OneCallbackEach | src/channel_io_stream.cpp:1355-1463 | over every run: one callback for each request completed or lost, in order and with its own payload, and the wire is the frames of all accepted payloads |
| StreamSenders.BalancedLess | src/channel_io_stream.cpp:1392-1403 | calling back the front block and giving it back keeps callbacks, outstanding requests and blocks in step |
| StreamSenders.CompletedUpTo | src/channel_io_stream.cpp:1370-1409 | a completion calls back the requests up to its own and no more; one that is not outstanding calls back all of them |
| StreamSenders.CompletedAs | src/channel_io_stream.cpp:1392-1400 | each of these once, in order, with its own payload, and with the timeout code for all but the completed one |
| StreamSenders.InTurnRun | src/channel_io_stream.cpp:1355-1411 | completions that come in turn take one request each, and make one callback each |
| StreamSenders.InTurnSucceed | src/channel_io_stream.cpp:1392-1408 | each of these callbacks is a success with the payload of its own request |
| StreamSenders.RequestParts | src/channel_io_stream.cpp:1383-1390 | the length read back from a request is that of its payload, so the length assertion holds |
| StreamSenders.WireIsFramed | src/channel_io_stream.cpp:1441-1452 | the bytes handed over are the framed stream that the receiver parses |
| StreamSenders.SentArrives | src/channel_io_stream.cpp:301-476 | from sender to receiver: the receive callbacks carry the first accepted payloads, each with success or, if it is over the receiver's limit, an invalid size; all of them once all bytes are read |
| StreamSenders.Sender.constructor | src/channel_io_stream.cpp:658-663 | a new connection has nothing outstanding, and the limits and the region its settings give it |
| StreamSenders.Sender.FrameBytes | src/channel_io_stream.cpp:1422-1449 | checksum, length and payload as they go on the wire |
| StreamSenders.Sender.Submit | src/channel_io_stream.cpp:1427-1459 | the request is stored and handed over; a refused write leaves the write buffers as they were |
| StreamSenders.Sender.Send | src/channel_io_stream.cpp:1413-1463 | accepted exactly when the size limit, the limits on blocks and unread bytes, the room and the platform allow; otherwise nothing changes |
| StreamSenders.Sender.Oldest | src/channel_io_stream.cpp:1370-1400 | the length assertion of the completion holds, the payload is the oldest request's own, and the code tells whether that is the one completed |
| StreamSenders.Sender.CompleteOne | src/channel_io_stream.cpp:1371-1408 | one round: the oldest request gets its one callback and its block is given back |
| StreamSenders.Sender.OnWritten | src/channel_io_stream.cpp:1355-1411 | the requests before the completed one are called back as lost and it as written, for completions in any order |
| Rings.RingWriteRotated | src/channel_mem.cpp:471-482 | a copy in one or two pieces round the ring is one plain copy seen from the read cursor |
| Rings.RingReadRotated | src/channel_mem.cpp:640-650 | the same for reading |
| Rings.FreeByRemainder | src/channel_mem.cpp:418-423 | the free-node formula counts the nodes that are not taken, less one |
| Rings.DistanceByRemainder | src/channel_mem.cpp:614-617 | the node count formula of the reader is the distance of the two cursors |
| MemBlocks.FetchStep | src/channel_mem.cpp:288-298 | the operation numbers count up, skip zero and wrap at 32 bits |
| MemBlocks.SeqsDiffer | src/channel_mem.cpp:288-298 | numbers fetched less than one period apart differ |
| MemSteps.Reserved | src/channel_mem.cpp:425-454 | a reservation and its first mark add one block behind the others, on a node that was clear |
| MemSteps.MarkedNext | src/channel_mem.cpp:456-466 | marking a later node finds it free of any number and touches no other block |
| MemSteps.FilledBlock | src/channel_mem.cpp:468-483 | size, payload and check value land in the block's own nodes, across the end if need be |
| MemSteps.PublishedBlock | src/channel_mem.cpp:485-494 | publishing finds the writer's own number on the first node |
| MemSteps.FrontBlock | src/channel_mem.cpp:546-660 | the reader finds at its cursor the oldest block's flags, size, payload and check value |
| MemSteps.RunIsBlock | src/channel_mem.cpp:602-617 | the run of nodes with the oldest block's number is that block if and only if no other block follows or the next one bears another number |
| MemSteps.DrainedBlock | src/channel_mem.cpp:602-612 | clearing that run leaves every other block as it was |
| MemSteps.ReleasedBlock | src/channel_mem.cpp:674 | moving the read cursor over a cleared block leaves the others as they were |
| MemReaders.ReadableIff | src/channel_mem.cpp:602-637 | between operations the reader's count of nodes agrees with the size of the oldest block if and only if the next block bears another number |
| MemReaders.RecentDiffers | src/channel_mem.cpp:288-298 | fewer fetches than one period since the oldest block was begun leave its neighbour another number |
| MemReaders.ResetNodes | src/channel_mem.cpp:602-612 | the reset loop clears exactly the run of nodes with the number |
| MemReaders.CopyOut | src/channel_mem.cpp:640-650 | both branches of the read give the payload |
| MemReaders.RunOfSame | src/channel_mem.cpp:602-612 | the run of nodes with one number covers exactly the blocks at the front that bear it |
| MemReaders.BlocksGone | src/channel_mem.cpp:602-674 | clearing the nodes of the oldest blocks and moving the cursor behind them leaves all other blocks as they were |
| MemReaders.ReceivedIff | src/channel_mem.cpp:518-681 | a message is received if and only if there is one, it fits the caller's buffer and the next block bears another number |
| MemReaders.MergedAreLost | src/channel_mem.cpp:614-681 | otherwise at least the two oldest messages are lost, the code is that of a bad node count, and what stays are the newest |
| MemReaders.SeenAt | src/channel_mem.cpp:537-600 | at its cursor the reader sees the end, a node it has cleared, or the first node of a block with a sound size |
| MemReaders.ClearFront | src/channel_mem.cpp:602-617 | the nodes cleared are those of all blocks at the front with one number, and their count is that of one block exactly when there is one |
| MemReaders.Scan | src/channel_mem.cpp:537-627 | the loop of the reader ends, at the oldest block or after recovery, with the blocks, code and size of `Received` |
| MemReaders.ResetPassed | src/channel_mem.cpp:663-671 | the reset of the nodes passed finds them clear |
| MemReaders.ReceiveFrom | src/channel_mem.cpp:518-681 | no data, buffer too small, the oldest message byte for byte, or recovery from a number that came round |
| MemChannels.MemInit | src/channel_mem.cpp:345-389 | the node count and the protected nodes from the length of the region, which must hold one node |
| MemChannels.WrapsIff | src/channel_mem.cpp:471-482 | the copy is split exactly when its bytes pass the end of the area |
| MemChannels.CopyBytes | src/channel_mem.cpp:471-482 | both branches of the copy write round the ring |
| MemChannels.MarkNodes | src/channel_mem.cpp:456-466 | the marking loop marks every later node of the block; the conflict check never fires |
| MemChannels.FetchSeq | src/channel_mem.cpp:288-298 | the next operation number, never zero |
| MemChannels.WriteBlock | src/channel_mem.cpp:425-496 | all steps of a send with room add one published block behind the others |
| MemChannels.Available | src/channel_mem.cpp:417-423 | the nodes a sender may take: all but the used, the protected and one |
| MemChannels.SendInto | src/channel_mem.cpp:391-497 | a send succeeds exactly when the message is empty or its nodes fit, and then appends it; an operation number is used up even by a refused one, unless the message is larger than the ring |
| MemChannels.MemChannel.Send | src/channel_mem.cpp:391-497 | the queue grows by the message exactly on success |
| MemChannels.MemChannel.Receive | src/channel_mem.cpp:518-681 | the queue loses its oldest message exactly on success, unless the next block bears the same number; then what is lost is exactly what recovery takes; an empty queue and a small buffer change nothing |
| MemChannels.NumbersComeRound | src/channel_mem.cpp:391-681 | a run in which two messages are queued, and one receive loses both: refused sends have used a period of numbers up between them |
| MemConcurrent.RoomAtExchange | src/channel_mem.cpp:412-437 | a writer that wins the exchange has room, however old its view of the read cursor |
| MemConcurrent.KeepDecide | src/channel_mem.cpp:412-454 | refusing, retrying and reserving keep the invariant |
| MemConcurrent.MarkCore | src/channel_mem.cpp:456-466 | among any writers, no writer meets another's number where it marks |
| MemConcurrent.PublishCore | src/channel_mem.cpp:485-494 | among any writers, a writer still finds its own number when it publishes |
| MemConcurrent.ScanSees | src/channel_mem.cpp:533-600 | the reader sees a first node at its cursor and a sound size |
| MemConcurrent.ResetSees | src/channel_mem.cpp:602-617 | the nodes the reader clears are as many as the size takes |
| MemConcurrent.CopyOutStep | src/channel_mem.cpp:640-660 | the reader takes the oldest message and its check value agrees |
| MemConcurrent.KeepStep | src/channel_mem.cpp:391-681 | every step of every writer and of the reader keeps the invariant |
| MemConcurrent.KeepRun | src/channel_mem.cpp:391-681 | so does every interleaving of steps |
| MemConcurrent.ReceivedIsPrefix | src/channel_mem.cpp:391-681 | in every interleaving the sent messages, in exchange order, are the received ones followed by those still in the ring, all of them received when the cursors meet; no number conflict and no bad block occurs, and reserved ranges are adjacent, disjoint and bounded |
| MemProgress.ReaderAlone | src/channel_mem.cpp:518-681 | left alone, a waiting reader receives the oldest message exactly if it is published and fits the buffer, in five steps; otherwise nothing changes |
| MemProgress.WriterAlone | src/channel_mem.cpp:391-454 | left alone, a writer reserves nodes for its message exactly if they are free besides the protected ones and one; otherwise it gives up and nothing is sent |
| MemProgress.SeesNoRoom | src/channel_mem.cpp:417-428 | a writer that sees no room gives up, whatever has become of the cursors |
| MemProgress.LostExchange | src/channel_mem.cpp:412-437 | a writer that loses the exchange starts over, and left alone then sends exactly if there is room |
| MemProgress.WriterFinishes | src/channel_mem.cpp:456-496 | left alone, a writer with reserved nodes publishes its block, and nothing else changes |
| MemProgress.SendAlone | src/channel_mem.cpp:391-497 | left alone, a send ends with a published block behind the others exactly if there is room |
| MemProgress.KeepOwned | src/channel_mem.cpp:391-681 | every step of every party leaves each unpublished block with a writer that is bringing it into the ring |
| MemProgress.AllCanArrive | src/channel_mem.cpp:391-681 | from every reachable state there is a run in which every message sent is received |
| Domains.BitTestIsInterval | src/atbus_endpoint.cpp:80-108 | the bit test for a domain is membership between its smallest and largest id |
| Domains.NestedOrApart | src/atbus_endpoint.cpp:80-108 | two domains are apart or one lies inside the other, and one id tells which |
| EndpointTables.FindIsScan | src/atbus_node.cpp:1141-1158 | looking at one neighbour finds the unique endpoint whose domain holds the id, as a scan of the table would |
| EndpointTables.NeighboursDecide | src/atbus_node.cpp:1160-1205 | the two neighbours tell whether a new domain is apart from every stored one |
| EndpointTables.InsertChild | src/atbus_node.cpp:1160-1211 | inserts exactly when the domain is apart from all stored ones, and keeps the table ordered |
| EndpointTables.RemoveChild | src/atbus_node.cpp:1213-1229 | removes exactly the endpoint with that id |
| NodeTables.FatherCovers | src/atbus_node.cpp:647-666 | the father's domain strictly contains the node's own |
| NodeTables.OneHolder | src/atbus_node.cpp:638-738 | no id lies in the domains of two direct brothers or children |
| NodeTables.GetIsScan | src/atbus_node.cpp:612-636 | a direct endpoint is found by its id exactly unless it is left outside the father's domain or bears the father's id |
| NodeTables.GetIsDirect | src/atbus_node.cpp:612-636 | what a lookup finds bears the id and is the father, a brother or a child |
| NodeTables.AddedIff | src/atbus_node.cpp:638-696 | when an endpoint is added and with which code it is refused, told by domains and a scan of the tables; nothing else changes |
| NodeTables.RemovedSays | src/atbus_node.cpp:698-738 | a removal succeeds exactly for an id that a lookup finds, with every other code, and then that id alone goes |
| NodeTables.RemovedIff | src/atbus_node.cpp:698-738 | removing by the id of a direct brother or child takes it out of the tables if and only if it does not bear the father's id and is not left outside the father's domain; with the code otherwise |
| NodeTables.StrandedBrother | src/atbus_node.cpp:698-738 | a run of two registrations after which removal answers invalid id for a stored brother |
| NodeTables.ShadowedChild | src/atbus_node.cpp:699-704 | a run of two direct additions after which removal by a child's id succeeds, drops the father and keeps the child; a father that registered would be taken for the child |
| NodeTables.Node.AddEndpoint | src/atbus_node.cpp:638-696 | father, brother, child or refusal, with every code, and the nesting of domains kept |
| NodeTables.Node.RemoveEndpoint | src/atbus_node.cpp:698-738 | removes exactly the endpoint with the id from the table that the tests of the id choose, with every code, and keeps the nesting |
| NodeTables.Node.Register | src/atbus_msg_handler.cpp:292-354 | a bound connection must be bound to an endpoint with the id; a known id is answered by its endpoint: conflict for another process, no connection if it refuses the new one; a new peer in the node's domain must span less and may not claim a global table the node lacks |
| NodeTables.RegisteredKeeps | src/atbus_msg_handler.cpp:306-354 | a registration leaves children narrower than the node, and no brother or child with the father's id |
| NodeTables.RegisteredIff | src/atbus_msg_handler.cpp:292-354 | each code of a registration exactly under its condition on the connection, the known endpoints and the domains |
| NodeTables.RunNode | src/atbus_msg_handler.cpp:281-354 | so does every run of registrations and removals from an empty node on |
| NodeTables.RemovedUnlessStranded | src/atbus_node.cpp:698-738 | after such a run removal by the id of a brother or child fails for the brothers outside the father's domain only, and for those always |
| Routing.TargetIff | src/atbus_node.cpp:533-595 | for any tables and any node, global router or not: when data goes to the father, and when to the one brother or child whose domain holds the id |
| Routing.RefusedIff | src/atbus_node.cpp:544-599 | and when it is refused, as an invalid id or for want of a connection |
| Routing.SendCodes | src/atbus_node.cpp:597-609 | the code for a missing, a broken and a working link to the target, and that the request is stamped exactly if there is a connection |
| Routing.RequestIff | src/atbus_msg_handler.cpp:169-243 | when a request is delivered, expires, goes over the link to its target, goes round over the father, or fails, and with which code |
| Routing.SendData | src/atbus_node.cpp:521-604 | the target chosen, the code, and the router list and head rewritten exactly when a connection was found |
| Routing.Receive | src/atbus_msg_handler.cpp:163-246 | delivery, expiry, forwarding with the retry through the father, or failure |
| Routes.HopsBounded | src/atbus_msg_handler.cpp:183-232 | over any tables a request is passed on at most as often as the limit leaves room for |
| Routes.VoyageBounded | src/atbus_msg_handler.cpp:163-232 | data of a node's own takes at most the limit of hops, or the one that is always taken; it exceeds the limit exactly when that is zero and the first send succeeded |
| Routes.OneHopForFree | src/atbus_node.cpp:521-610 | a voyage of one hop under a limit of none |
| Routes.HopGoes | src/atbus_node.cpp:538-594 | in a nested network every hop, the retry included, goes up, across or down |
| Routes.WalkNeverReturns | src/atbus_node.cpp:538-594 | a walk of such hops visits no node twice |
| Routes.VoyageShape | src/atbus_node.cpp:521-610 | in a nested network every voyage goes up, across at most once, then down, and repeats no node |
| Routes.OnlyBrothersFail | src/atbus_node.cpp:538-594 | with its tree links up the only target of a node that may not be reached is a brother of one that has a father |
| Routes.HopTaken | src/atbus_msg_handler.cpp:187-232 | a request is passed on, over the brother or after a failure over the father, with one entry more on its router list, or two if the brother's link broke |
| Routes.NextHop | src/atbus_node.cpp:521-610 | in a complete network with its tree links up there is always a next hop on the way, whether links between brothers work or not |
| Routes.Arrives | src/atbus_msg_handler.cpp:163-232 | there a request reaches its target if and only if its router list is within the limit at the last hop, each retry after a broken link counting twice, and expires otherwise |
| Routes.StampsBounded | src/atbus_msg_handler.cpp:183-232 | the list grows by one or two entries a hop |
| Routes.VoyageArrives | src/atbus_msg_handler.cpp:163-232 | data of a node's own sets out if and only if the link to its first target works, which only a link to a brother of a node with a father may not; it arrives exactly when the way is one hop or the list within the limit at the last |
| Routes.ThroughTheFather | src/atbus_node.cpp:556-567 | the source's first picture: two children of one father that do not know each other are a complete nested network, and the way between them goes up once and down once |
| Routes.AroundTheBrother | src/atbus_msg_handler.cpp:224-232 | a network with its tree links up and a broken link between brothers: from a child of one to the other the way has three hops and leaves three entries before the last, so it is cut off under a limit of three and arrives under four; data of the brother's own is refused |
| ResetGraph.BoundIff | src/atbus_endpoint.cpp:110-194 | with no reset under way a connection is bound to an endpoint exactly when that has it as control or, once, as data connection |
| ResetGraph.Endpoint.AddConnection | src/atbus_endpoint.cpp:110-140 | binds a free connection in its place, refuses one bound elsewhere or during a reset |
| ResetGraph.Endpoint.RemoveConnection | src/atbus_endpoint.cpp:156-194 | frees the connection; the control or last data connection takes the endpoint down, the control connection closes the data connections; others are untouched |
| ResetGraph.Endpoint.Reset | src/atbus_endpoint.cpp:48-78 | terminates; the endpoint then lists nothing, all it listed are free, and its data connections, and no others, are closed |
| ResetGraph.Endpoint.FreeData | src/atbus_endpoint.cpp:65-69 | each data connection is closed and freed in turn while the list stays as it is |
| ResetGraph.Connection.Reset | src/atbus_connection.cpp:84-108 | terminates; the connection is closed and free afterwards, so the assertion on its binding holds, and of the others those are closed that it takes down with its endpoint |
| ResetGraph.Connection.Disconnect | src/atbus_connection.cpp:300-335 | the states a disconnect passes through, and the code: not initialised if there was nothing to close |

## Left out

Assumed throughout:

- Sizes and counters are unbounded integers, except the 64-bit accumulator of the variable-length integers, the
  checksums and the 32-bit operation numbers; sums of `size_t` with announced body lengths near 2^64 are not modelled.
- Allocation never fails, and pointers handed in are not NULL.
- The callbacks of channels, nodes and endpoints do not call back into the objects under way.
- Masks are below 31, since the source shifts a signed 32-bit one; `Domains.BitTestIsInterval` holds for any
  word width and any mask up to it.

Not modelled, or modelled otherwise than the source does it:

- The static region is a sequence of cells in which a block header stands in its first cell, and the shared
  memory one in which each word of a block head does; the classes reassign these values instead of writing
  through pointers. Debug filling of freed blocks is left out.
- Blocks of the dynamic mode are values in a list, each with an address of its own; reuse of freed addresses is
  not modelled.
- The ordered map of endpoints is the sequence of its entries in key order; shared pointers to endpoints are values.
- The head of a receive buffer is cut by `StreamReceivers.Receiver.CutSmall` and then spilled by
  `StreamReceivers.Receiver.Spill`, where the source does both in one loop that the spill always ends.
- The assertion in the loop of a write completion that the front block is the completed request's
  (`src/channel_io_stream.cpp:1382`): the model goes on as the loop does where assertions are compiled out.
- Sockets, name lookup, read errors, and the closing itself: only "bytes arrive" and "write completed" are kept.
- Packing of messages: a message is a record. Data, ping and registration payloads are left out.
- Recovery of the ring from faults other than a number that came round, its statistics and the timeout for
  unfinished blocks; there no message is safe from loss, so the theorem over interleavings is stated for runs in
  which the timeout does not fire.
- `mem_send`, whose exhausted retries return success because of a shadowed variable; contracts are on
  `mem_send_real`. `mem_attach`, and a configuration passed to `mem_init`, are left out.
- MemChannels.MemInit: without a configuration argument, so that one node in 128 is protected.
- MemConcurrent.ReceivedIsPrefix: the exchange and the mark on the first node are one step, the reader's clearing of a block and its copying of the payload are one step each, no cursor comes full circle between its load and the exchange, and no number comes round while in use; a reader that meets an unmarked first node skips it, so order is not promised outside these schedules.
- Routes.VoyageShape: for networks without global routers whose tables tell the peers' own ids and masks, where no node's id lies in a child's domain nor a father's in its child's.
- Routes.Arrives: requires that the links between fathers and children work, and those between brothers without a father; a request that is under way was not sent down to a node whose domain does not hold the target, which `Routes.HopWelcomes` shows of every hop.
- Routing.SendData: data a node addresses to itself gets the code and no target; the receive handler it calls is not part of the model.
- Routing.Receive: acknowledgements of delivered data and the request that two children connect directly are left out.
- DynamicBuffers.DynamicPush: allocation does not fail.
- ResetGraph.Endpoint.AddConnection: requires that no other endpoint under reset still lists the connection, which only a callback that re-enters could bring about.
- ResetGraph.Connection.Disconnect: without the release function and the list of polled connections.
- ResetGraph.Connection.Reset: requires that no other data connection of the same endpoint is being reset, which only a callback that re-enters could bring about; `ResetGraph.Endpoint.Reset` likewise.
- ResetGraph.Endpoint.RemoveConnection: requires the same, unless the endpoint is under reset itself.
- Reference counting: a control connection is unbound by a reset, and its destruction when that drops the last
  reference is not modelled.
- The choice among the data connections of an endpoint: a link is missing, broken or working.
- Responses: they end at their first receiver, which only reports them, so they take no route; failure reports
  over several hops do not exist.
- `node::disconnect` for children, which removes from the table of brothers; timers, statistics, event handlers,
  node synchronisation and the utility libraries.
