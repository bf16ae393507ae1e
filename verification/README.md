# Verified model of a TCP service, its packet filter and its containers

A Dafny model of the hard parts of a C network service and of the libraries in its tree, with
proofs about every run, every input or every reachable state.

* **The service's two threads.** An application thread and an IO thread pass write requests,
  buffers and events through single-producer/single-consumer rings with free-running 64-bit
  counters. `SpscQueue` is the ring as an object; `SpscSteps` runs it one atomic load or store
  at a time; `SendProtocol` interleaves the send path with the IO thread's drain and completion
  at that grain; `ReceiveService` runs the receive callbacks with the application's acquire and
  release.
* **Client framing.** `Framing` is the length-prefixed encoder, the incremental decoder and the
  cursor buffer under it.
* **The packet filter.** `FilterBlocks` builds and closes the block graph by backpatching,
  `FilterArith` compiles arithmetic and relations to scratch-register code, `FilterCode` writes the
  graph out as the array of instructions, and `FilterMachine` is the interpreter and the validator.
* **Containers and algorithms.** `HashTable` (in-place rehash), `BTree`, `AvlTree`, `Allocator`
  (coalescing free ring), `BoyerMoore`, `ParallelFor` and `Pipeline` (worker protocols), `Newick`
  (tree text).

`Bits` and `Sequences` hold the word arithmetic and the sequence facts the others share. All
threads are sequentially consistent. Check the project with `dafny verify dfyconfig.toml`.

## Findings

* Returning a request or a buffer to its free ring can fail, and then strands the item, exactly
  when the number of items is a power of two: the IO thread may hand an item back while the
  application still shows it as free, and the rounded ring then has no spare slot. The shipped
  number, 40000, is not affected (`SendProtocol.ReturnsNeverFailIffSpareSlot`).
* A channel is lost for ever exactly when its close finds no free event: the callback leaves before
  it puts the channel back on the list (`ReceiveService.DeadIffStarved`; a run that does it is in
  `ReceiveService.ChannelLost`). Events and buffers are never lost.
* Bytes received while no event is free wait in the channel's buffer; if the connection is closed
  before another receive, exactly those bytes are discarded (`ReceiveService.CloseDiscardsTheBuffer`,
  with a run in `ReceiveService.ByteDiscarded`).
* The client drops a received chunk that does not fit its buffer and decodes on. What it reported
  before is a prefix of what was sent (`Framing.ReportsPrefixUntilDrop`); afterwards it can report
  a message that was never sent (`Framing.DroppedChunkMisreads`).
* The validator accepts codes for which the interpreter has no case, and constant shifts by 32 or
  more; in an accepted program a step goes wrong exactly at such an instruction
  (`FilterMachine.AcceptedStep`). The comment above the validator says that jumps are forward; the
  code accepts backward ones, as the comment inside it admits (deps/libpcap/bpf_filter.c:491-493),
  so an accepted program need not stop (`FilterMachine.BackwardJumpLoops`).
* `gen_arth` looks at the first statement of the right operand only, so it also refuses divisions
  such as 1 / (0 + 5) that always have a value (`FilterArith.LeadingZeroRefused`);
  `FilterArith.Compiler.Gen` says exactly which expressions compile.
* A tree written in the New Hampshire format is read back unchanged exactly when its names are
  admissible; unnamed leaves, for one, are lost (`Newick.RoundTripIffNames`,
  `Newick.EmptyLeavesAreLost`).

## Model

| member | source | states |
|---|---|---|
| `SpscQueue.PowerTest` | src/queue_spsc.c:17 | `c & (c - 1)` vanishes exactly on powers of two |
| `SpscQueue.RoundUpCapacity` | src/queue_spsc.c:17-27 | the smearing yields the least power of two at or above the request if and only if the request is at most 2^63, and 0 otherwise |
| `SpscQueue.SlotOfCounter` | src/queue_spsc.c:88-90 | masking a wrapped counter selects the slot of the unwrapped one |
| `SpscQueue.SlotsDiffer` | src/queue_spsc.c:88-90 | items fewer than the capacity apart never share a slot |
| `SpscQueue.CounterDifference` | src/queue_spsc.c:51-57 | wrapped counters at most the capacity apart have the true difference |
| `SpscQueue.Ring.constructor` | src/queue_spsc.c:12-41 | a new ring is empty |
| `SpscQueue.Ring.Count` | src/queue_spsc.c:51-57 | the number of queued items, across counter wrap |
| `SpscQueue.Ring.Push` | src/queue_spsc.c:79-93 | appends unless the ring holds its capacity, in which case nothing changes |
| `SpscQueue.Ring.Peek` | src/queue_spsc.c:96-112 | the oldest item, left in place |
| `SpscQueue.Ring.Pop` | src/queue_spsc.c:115-127 | removes the oldest item if there is one |
| `SpscQueue.Ring.PopCached` | src/queue_spsc.c:130-133 | after a peek, completes it to a pop_back |
| `SpscQueue.Ring.PopBack` | src/queue_spsc.c:136-153 | removes and gives the oldest item |
| `SpscQueue.Ring.PopAll` | src/queue_spsc.c:156-178 | gives the oldest min(limit, size) items in order and removes exactly those |
| `SpscSteps.WrittenSlotIsDead` | src/queue_spsc.c:79-93 | the slot the producer writes holds no live item and is not the one the consumer reads |
| `SpscSteps.ProducerStepRefines` | src/queue_spsc.c:79-93 | each producer step keeps the invariant; only the head store changes the queue, by appending the pushed item |
| `SpscSteps.ConsumerStepRefines` | src/queue_spsc.c:96-178 | each step of peek, pop, pop_cached, pop_back and pop_all keeps the invariant; only the tail store changes the queue, by taking exactly what was read or dropped off its front |
| `SpscSteps.TurnRefines` | src/queue_spsc.c:79-178 | any one step of either thread keeps the invariant and acts on the queue as one step of a bounded FIFO, or not at all |
| `SpscSteps.RunIsFifo` | src/queue_spsc.c:79-178 | in every interleaving, across counter wrap, what was taken is a prefix of what was pushed and at most the capacity behind it |
| `SendProtocol.StartIsSafe` | src/tcp_service.c:93-133 | the set-up, pushing every item onto its free ring, satisfies the protocol invariant |
| `SendProtocol.AppStepKeepsSafe` | src/tcp_service.c:249-276 | every atomic step of send keeps the invariant, the window between publishing and popping included |
| `SendProtocol.IoStepKeepsSafe` | src/tcp_service_internal.c:78-100 | every atomic step of the completion callback, and of the drain at lines 322-347, keeps the invariant |
| `SendProtocol.RunKeepsSafe` | src/tcp_service.c:249-276 | so does every interleaving of the two threads |
| `SendProtocol.AppOnlyTouchesFreeItems` | src/tcp_service.c:258-274 | from peeking a request until it is published, that request is not on the ready ring, with libuv or in the IO thread's hands, and neither is its buffer once peeked; the ready push never fails |
| `SendProtocol.EveryItemInOnePlace` | src/tcp_service.c:258-274 | every request and write buffer is in exactly one of free ring (the window entry aside), ready ring, libuv, IO hands, stranded |
| `SendProtocol.OutIsNotFree` | src/tcp_service.c:258-274 | a request that is published, in the IO thread's hands or with libuv is not free, and neither is its buffer |
| `SendProtocol.StepSends` | src/tcp_service_internal.c:322-347 | what one step of either thread publishes, decides, hands to libuv and gets back balances, with channel and bytes |
| `SendProtocol.SentAsAsked` | src/tcp_service_internal.c:322-347 | in every interleaving the messages handed to uv_write are, in order, those of the successful calls drained so far, less those whose channel was closed or whose write failed; undrained calls wait in order; libuv holds each message unchanged until its callback |
| `SendProtocol.SendReachesLibuv` | src/tcp_service.c:249-276 | from any safe state at rest with a free request and buffer, some run ends with libuv holding all that waited and then this message |
| `SendProtocol.ExactCapacityLoses` | src/tcp_service_internal.c:93-96 | with rings exactly as large as the number of items, some interleaving strands a request and a buffer |
| `SendProtocol.ReturnsNeverFailIffSpareSlot` | src/tcp_service_internal.c:78-100 | no interleaving strands anything if and only if the rounded capacity exceeds the number of items, that is if and only if that number is not a power of two |
| `SendProtocol.DefaultConfigurationNeverLoses` | src/tcp_service.c:106-108 | with the shipped 40000 items no interleaving strands anything |
| `ReceiveService.StartIsGood` | src/event.c:9-27 | the set-up of event lists, read pool and channels satisfies the invariant |
| `ReceiveService.QueueSucceeds` | src/event.c:103-109 | pushing an event onto the ready list cannot fail |
| `ReceiveService.FormatsOnceConverted` | src/endpoint.c:8-31 | formatting an endpoint that the conversion at lines 74-95 accepted cannot fail |
| `ReceiveService.OnConnectionKeeps` | src/tcp_service_internal.c:236-298 | accepting a connection, for every outcome of the lookups and every address family, keeps the invariant |
| `ReceiveService.OnRecvAllocKeeps` | src/tcp_service_internal.c:103-126 | offering a buffer keeps it |
| `ReceiveService.OnRecvErrorKeeps` | src/tcp_service_internal.c:186-190 | a read error keeps it |
| `ReceiveService.OnRecvKeeps` | src/tcp_service_internal.c:178-221 | received bytes keep it, whether or not an event is free |
| `ReceiveService.OnCloseKeeps` | src/tcp_service_internal.c:49-75 | closing a channel keeps it |
| `ReceiveService.AcquireKeeps` | src/tcp_service.c:206-224 | acquiring the ready events keeps it |
| `ReceiveService.ReleaseKeeps` | src/tcp_service.c:227-246 | releasing one event, with its buffer, keeps it |
| `ReceiveService.BatchStays` | src/tcp_service.c:227-246 | until the application acquires again, whatever callbacks run, the events it has not released are still in its batch, in order and with unchanged payloads |
| `ReceiveService.BatchStaysAsDelivered` | src/tcp_service.c:206-246 | from acquire on, what the events still held say is what was delivered with them |
| `ReceiveService.StepOutcome` | src/tcp_service_internal.c:178-298 | which event each callback queues, in which phase it leaves each client, and that a receive leaves its bytes in the buffer exactly when no event is free |
| `ReceiveService.RunOutcome` | src/tcp_service_internal.c:49-298 | the same over every run |
| `ReceiveService.EveryReceiveIsQueued` | src/tcp_service_internal.c:196-221 | from the start, a connected client's queued payloads lack exactly the bytes that arrived since its last receive that found a free event; if none was starved they are all its bytes |
| `ReceiveService.AcquireDelivers` | src/tcp_service.c:206-224 | acquire delivers the next min(buffer_count, ready) events in the order they were queued |
| `ReceiveService.RunKeepsGood` | src/tcp_service_internal.c:49-298 | so does every run |
| `ReceiveService.RunLosesNothing` | src/tcp_service_internal.c:49-298 | no run strands an event |
| `ReceiveService.EventsAndBuffersConserved` | src/tcp_service_internal.c:49-298 | in every run every event is in exactly one of free, ready, acquired, and every read buffer in exactly one of pool, a channel, a READ event |
| `ReceiveService.DeadIffStarved` | src/tcp_service_internal.c:60-71 | the channels lost in a run are exactly those closed while no event was free |
| `ReceiveService.ChannelsConservedIffNoneStarved` | src/tcp_service_internal.c:60-71 | each channel is in exactly one of listed, connected, closing if and only if no close found the event list empty |
| `ReceiveService.ChannelLost` | src/tcp_service_internal.c:60-71 | a run of three callbacks that loses the only channel |
| `ReceiveService.BytesArriveInOrder` | src/tcp_service_internal.c:178-219 | for every client, connected, closing or closed: its READ payloads in order followed by what its buffer holds, or held when it was closed, are exactly the bytes received; what was acquired is a prefix of what was queued |
| `ReceiveService.CloseDiscardsTheBuffer` | src/tcp_service_internal.c:55-58 | at the close the payloads queued since OPEN are a prefix of the bytes received, and the missing ones are exactly what the buffer held |
| `ReceiveService.ByteDiscarded` | src/tcp_service_internal.c:55-58 | a run in which a received byte never reaches the application |
| `ReceiveService.ScanMeansGrammar` | src/tcp_service_internal.c:49-75 | a client whose events never break the session scan has events of the shape (CLOSE or OPEN READ* CLOSE)* with an optional unfinished OPEN READ* |
| `ReceiveService.EventsFollowGrammar` | src/tcp_service_internal.c:49-298 | in every run every client's events have that shape, those delivered as well as those queued |
| `Framing.BeRoundTrip` | src/buffer.c:131-146 | reading back a written big-endian number gives it |
| `Framing.BeInjective` | src/buffer.c:70-85 | every byte string is the writing of the number it reads as |
| `Framing.EncodeParts` | src/tcp_connection.c:245-279 | length, id, time stamp, payload and null byte, each at its place in a frame |
| `Framing.DrainMore` | src/tcp_connection.c:63-102 | draining before more bytes arrive ends where draining everything at once ends |
| `Framing.DrainFrame` | src/tcp_connection.c:63-102 | a whole frame at the front is consumed exactly and reported with its payload |
| `Framing.DrainPrefix` | src/tcp_connection.c:63-102 | no prefix of a stream of frames makes the loop leave by an error |
| `Framing.DrainStream` | src/tcp_connection.c:63-102 | a whole stream yields every id, stamp and payload in order and leaves nothing |
| `Framing.LastIsLastConsecutive` | src/tcp_connection.c:90-97 | ids that count on from last_recv_msg_id leave it at the last of them, across 64-bit wrap |
| `Framing.ChunksDecodeAsWhole` | src/tcp_connection.c:43-121 | for every message sequence and every split into chunks that fit, the decoder finds every message of the stream with its payload, holds nothing back, and ends with the last consecutive id |
| `Framing.ReportsPrefixUntilDrop` | src/tcp_connection.c:62-121 | for every message sequence, split and capacity, what is reported before the first chunk that does not fit is a prefix of the messages sent |
| `Framing.DroppedChunkMisreads` | src/tcp_connection.c:62 | two messages whose second chunk does not fit are reported as one message that was never sent |
| `Framing.Buffer.constructor` | src/buffer.c:10-18 | a new buffer is empty |
| `Framing.Buffer.Write` | src/buffer.c:104-110 | appends all bytes, or none when they do not fit |
| `Framing.Buffer.Read` | src/buffer.c:70-85 | gives the next unread bytes, all or nothing |
| `Framing.Buffer.Skip` | src/buffer.c:41-49 | skips unread bytes; asking for none, or for too many, fails |
| `Framing.Buffer.Reset` | src/buffer.c:171-174 | nothing unread and the whole capacity free |
| `Framing.Connection.ReadMessage` | src/tcp_connection.c:74-99 | the payload branch is the specification's message step, error exits included |
| `Framing.Connection.OnRecv` | src/tcp_connection.c:43-121 | one receive callback is exactly one feeding of the decoder |
| `FilterBlocks.RunThrough` | deps/libpcap/gencode.c:912-927 | in a graph whose exits were patched, a run is a run of the first piece continued at the target |
| `FilterBlocks.JoinPiece` | deps/libpcap/gencode.c:1003-1022 | joining two pieces gives a piece for the conjunction or disjunction, exit lists acyclic and sharing only the last block |
| `FilterBlocks.NotPiece` | deps/libpcap/gencode.c:1024-1028 | flipping one sense exchanges the two exit lists and negates the piece |
| `FilterBlocks.PieceFrame` | deps/libpcap/gencode.c:683-692 | a piece depends on its own blocks only |
| `FilterBlocks.FinishedDecides` | deps/libpcap/gencode.c:996-999 | with both exit lists patched to return blocks, every run from the root ends as the expression evaluates |
| `FilterBlocks.Graph.Backpatch` | deps/libpcap/gencode.c:912-927 | every exit on the list, and no other field, now leads to the target |
| `FilterBlocks.Graph.Merge` | deps/libpcap/gencode.c:933-944 | the last link of the first list, and no other field, now leads to the second |
| `FilterBlocks.Graph.GenAnd` | deps/libpcap/gencode.c:1003-1012 | the second block stands for the conjunction; blocks of other pieces are untouched |
| `FilterBlocks.Graph.GenOr` | deps/libpcap/gencode.c:1014-1022 | the same for the disjunction |
| `FilterBlocks.Graph.GenNot` | deps/libpcap/gencode.c:1024-1028 | the block stands for the negation |
| `FilterBlocks.Graph.NewBlock` | deps/libpcap/gencode.c:683-692 | a fresh block with no successors that is its own head |
| `FilterBlocks.Graph.Compile` | deps/libpcap/grammar.y:403-480 | every Boolean expression gets a piece on new blocks only |
| `FilterBlocks.Graph.AddCheck` | deps/libpcap/gencode.c:992-994 | the link-type check goes in front of the filter as a conjunction |
| `FilterBlocks.Graph.Finish` | deps/libpcap/gencode.c:996-999 | the closed graph returns snaplen when the expression is true, 0 when it is false, and rejects when a rejecting test is reached |
| `FilterBlocks.Graph.FinishParse` | deps/libpcap/gencode.c:992-1000 | the same for the expression behind the link-type check |
| `FilterBlocks.Graph.CompileFilter` | deps/libpcap/gencode.c:992-1028 | compiling and closing any expression, with or without the link-type check, yields a graph that decides it |
| `FilterBlocks.UpwardJoin` | deps/libpcap/gencode.c:1002-1022 | joining pieces keeps control flowing to later blocks only |
| `FilterBlocks.UpwardFinished` | deps/libpcap/gencode.c:996-999 | so does closing the graph, which then has no cycle |
| `FilterMachine.Validate` | deps/libpcap/bpf_filter.c:400-521 | the loop over masked codes accepts exactly the programs all of whose instructions pass and that end in a return |
| `FilterMachine.JumpTestIsExact` | deps/libpcap/bpf_filter.c:495-499 | the 32-bit jump test accepts exactly the sign-extended jumps that stay inside the program |
| `FilterMachine.InsnAcceptedMeans` | deps/libpcap/bpf_filter.c:409-518 | on codes the interpreter knows, the masked tests say exactly that scratch index, constant divisor and jump targets are in order |
| `FilterMachine.AcceptsMeans` | deps/libpcap/bpf_filter.c:400-521 | acceptance of a program of known codes, in terms of the decoded instructions, both ways |
| `FilterMachine.AcceptedIffLikeKnown` | deps/libpcap/bpf_filter.c:410-518 | of all codes, known or not, exactly those are accepted that agree in the tested bits with a known one that would be harmless in their place |
| `FilterMachine.CalculateMeans` | deps/libpcap/bpf_filter.c:268-356 | each operator computes its meaning over the integers: sums and products up to a multiple of 2^32, quotient and remainder, each bit of and, or, xor, and shifts as multiplication and division |
| `FilterMachine.OneMeaning` | deps/libpcap/bpf_filter.c:268-356 | that meaning determines the value |
| `FilterMachine.SetMeans` | deps/libpcap/bpf_filter.c:248-266 | the bit test holds exactly when the operands share a bit |
| `FilterMachine.AbsoluteLoadReturns` | deps/libpcap/bpf_filter.c:120-159 | a program that loads 1, 2 or 4 bytes at an offset returns them as a big-endian number, or 0 |
| `FilterMachine.HeaderLengthReturns` | deps/libpcap/bpf_filter.c:196-202 | the header-length load gives four times the low four bits of the byte |
| `FilterMachine.LengthReturns` | deps/libpcap/bpf_filter.c:162-168 | both length loads give the length on the wire |
| `FilterMachine.TransferReturns` | deps/libpcap/bpf_filter.c:370-376 | a value moved to the index register comes back |
| `FilterMachine.ScratchReturns` | deps/libpcap/bpf_filter.c:212-226 | a scratch word holds what was last stored in it, from either register |
| `FilterMachine.OperatorReturns` | deps/libpcap/bpf_filter.c:268-356 | an operator with either kind of operand returns what it means; a zero divisor in the index register returns 0 |
| `FilterMachine.BranchReturns` | deps/libpcap/bpf_filter.c:236-266 | a comparison with either kind of operand takes its true branch exactly when it holds |
| `FilterMachine.JumpReturns` | deps/libpcap/bpf_filter.c:228-234 | an unconditional jump skips as many instructions as it says |
| `FilterMachine.IndirectReadInside` | deps/libpcap/bpf_filter.c:171-197 | the wrapping guards of indirect loads admit exactly the reads inside the packet |
| `FilterMachine.ApplyIndirect` | deps/libpcap/bpf_filter.c:171-197 | an indirect load reads the bytes at index plus offset or returns 0 |
| `FilterMachine.AcceptedStep` | deps/libpcap/bpf_filter.c:108-379 | in an accepted program a step faults exactly at an unknown code or a constant shift by 32 or more, and otherwise stays inside the program |
| `FilterMachine.AcceptedRunIsSafe` | deps/libpcap/bpf_filter.c:108-379 | on every packet and for any number of steps: fetches inside the program, scratch indices below 16, packet reads inside the buffer, no zero divisor |
| `FilterMachine.RefusedInstructionFaults` | deps/libpcap/bpf_filter.c:400-521 | a refused known instruction other than a comparison goes wrong in every run that reaches it |
| `FilterMachine.ForwardRunStops` | deps/libpcap/bpf_filter.c:108-379 | without a backward jump every run stops within as many steps as there are instructions |
| `FilterMachine.BackwardJumpLoops` | deps/libpcap/bpf_filter.c:228-234 | an accepted program with a backward jump that never stops |
| `FilterMachine.UnknownCodeAborts` | deps/libpcap/bpf_filter.c:112-113 | an accepted program that aborts |
| `FilterMachine.WideShiftAccepted` | deps/libpcap/bpf_filter.c:350-356 | an accepted program that shifts by 32 bits |
| `FilterMachine.Filter` | deps/libpcap/bpf_filter.c:108-379 | on any program and packet the interpreter's loop, stopped after a given number of instructions, is where the step semantics is |
| `FilterMachine.CleanProgramReturns` | deps/libpcap/bpf_filter.c:108-379 | an accepted program of known codes, narrow shifts and forward jumps returns a value within its length |
| `FilterArith.ImmediateComputes` | deps/libpcap/gencode.c:7620-7664 | constants and the packet length end up in their register |
| `FilterArith.NegateComputes` | deps/libpcap/gencode.c:7684-7710 | negation in place, modulo 2^32 |
| `FilterArith.LoadComputes` | deps/libpcap/gencode.c:7304-7327 | packet loads at base plus index, or rejection |
| `FilterArith.BinComputes` | deps/libpcap/gencode.c:7716-7767 | the emitted statements leave the operator's 32-bit result in the new register, keep reserved registers, and reject a zero divisor |
| `FilterArith.Compiler.AllocReg` | deps/libpcap/gencode.c:7777-7792 | a free register, marked; fails exactly when all sixteen are taken |
| `FilterArith.Compiler.FreeReg` | deps/libpcap/gencode.c:7794-7802 | the register is free again |
| `FilterArith.Compiler.Gen` | deps/libpcap/gencode.c:7645-7767 | compilation succeeds exactly when no operand is refused and enough registers are free; the code then computes the value from any machine state into a fresh register, the only one newly taken |
| `FilterArith.Compiler.GenLoad` | deps/libpcap/gencode.c:7272-7327 | the same for a load, which needs a second register for a moment |
| `FilterArith.Compiler.GenArth` | deps/libpcap/gencode.c:7716-7767 | the same for a binary operator; it refuses exactly on the first statement of the right operand |
| `FilterArith.Compiler.GenRelation` | deps/libpcap/gencode.c:7562-7587 | the code branches by the true comparison of the two values, rejects when one has none, and all registers are free again; it succeeds exactly when both operands compile |
| `FilterArith.RelationDecides` | deps/libpcap/gencode.c:7562-7580 | comparing by subtraction for equality, and directly otherwise, is the true 32-bit comparison |
| `FilterArith.RunCodeIsRun` | deps/libpcap/bpf_filter.c:108-379 | registers left over from earlier blocks never matter |
| `FilterArith.FilterDecides` | deps/libpcap/gencode.c:996-1028 | a closed graph over relations, run with its real code and registers on any packet, returns snaplen when the expression holds and 0 otherwise, a rejection included |
| `FilterArith.SkeletonMeans` | deps/libpcap/grammar.y:734-741 | the six comparison operators, three of them reversed, and the Boolean structure mean what they say |
| `FilterArith.Parser.GenRelation` | deps/libpcap/gencode.c:7571-7579 | the new block stands for the operator's test, negated when the operator is the reverse of a machine comparison |
| `FilterArith.Parser.Parse` | deps/libpcap/grammar.y:403-501 | the grammar's actions on the real blocks and registers: they succeed exactly when every relation compiles, and the block returned stands for the filter, on new blocks and relations only |
| `FilterArith.CompileProgram` | deps/libpcap/grammar.y:403-501 | a whole filter compiles exactly when each of its relations does, and its block graph returns snaplen on the packets that satisfy it and 0 on all others, from any register state |
| `FilterArith.LeadingZeroRefused` | deps/libpcap/gencode.c:7735-7744 | a division that always has a value and is refused |
| `FilterCode.RunBody` | deps/libpcap/optimize.c:2332-2412 | statements copied anywhere into a program do there what they do alone |
| `FilterCode.RunBehind` | deps/libpcap/optimize.c:2302-2306 | a run that returns is not changed by code in front of it |
| `FilterCode.BranchGoes` | deps/libpcap/optimize.c:2420-2462 | a branch reaches both its targets, directly or through its extra jump |
| `FilterCode.BlockDoes` | deps/libpcap/optimize.c:2284-2464 | a block written in front of its successors returns what the graph returns from it |
| `FilterCode.BlockAccepted` | deps/libpcap/optimize.c:2284-2464 | and is accepted by the validator |
| `FilterCode.Converter.Convert` | deps/libpcap/optimize.c:2284-2300 | the recursion places the successors and then the block; it fails only by marking one more branch as too far |
| `FilterCode.Converter.Emit` | deps/libpcap/optimize.c:2302-2464 | the block's code, in front of what was written |
| `FilterCode.IcodeToFcode` | deps/libpcap/optimize.c:2480-2522 | the attempts end, and the array does what the graph does and is accepted |
| `FilterCode.Compile` | deps/libpcap/gencode.c:844-845 | a filter compiles exactly when each of its relations does; the validator accepts the instructions, and the interpreter running them on any packet returns snaplen if the packet satisfies the filter and 0 if not |
| `BoyerMoore.BadCharTable` | deps/klib/kstring.c:141-144 | each entry is the distance to the last earlier occurrence |
| `BoyerMoore.Suffixes` | deps/klib/kstring.c:145-160 | each entry is the exact length of the common suffix |
| `BoyerMoore.BorderShifts` | deps/klib/kstring.c:161-168 | each entry is the least shift past the position that matches a border |
| `BoyerMoore.EntryIsGoodSuffix` | deps/klib/kstring.c:161-171 | what the two loops leave is the least shift a mismatch there does not rule out |
| `BoyerMoore.GoodSuffixTable` | deps/klib/kstring.c:161-171 | so every good-suffix entry is that least shift |
| `BoyerMoore.ShiftIsSafe` | deps/klib/kstring.c:184-191 | the larger of the two shifts is positive and passes over no occurrence |
| `BoyerMoore.Prepare` | deps/klib/kstring.c:136-174 | both tables are right for the pattern |
| `BoyerMoore.Search` | deps/klib/kstring.c:176-195 | with tables kept from before: the leftmost occurrence, or none and there is none |
| `BoyerMoore.Kmemmem` | deps/klib/kstring.c:176-195 | the same from scratch, for every text and every non-empty pattern |
| `HashTable.ProbesDiffer` | deps/klib/khash.h:237-240 | two of the first n triangular probes of a power-of-two table never meet |
| `HashTable.ProbesCover` | deps/klib/khash.h:237-240 | the first n probes reach every bucket |
| `HashTable.FirstEmpty` | deps/klib/khash.h:278-281 | the rehash's probe loop ends at the first empty bucket |
| `HashTable.AbsentAtEmpty` | deps/klib/khash.h:237-241 | an empty bucket before the key means the key is absent |
| `HashTable.KickOut` | deps/klib/khash.h:282-287 | exchanging the entry in hand with the one it displaces keeps every entry in exactly one place |
| `HashTable.Arrived` | deps/klib/khash.h:268-304 | when no entry is left behind, the new flags index the same map |
| `HashTable.Table.Get` | deps/klib/khash.h:230-243 | finds the key exactly when the map has it; the wrap-around exit is never taken |
| `HashTable.Table.Del` | deps/klib/khash.h:349-355 | removes that entry and nothing else |
| `HashTable.Table.MoveEntry` | deps/klib/khash.h:277-293 | the kick-out chain ends and places every entry it moves |
| `HashTable.Table.MoveAll` | deps/klib/khash.h:269-295 | afterwards no entry is left in an old bucket |
| `HashTable.Table.Rehash` | deps/klib/khash.h:268-304 | the in-place rehash preserves the map |
| `HashTable.Table.Resize` | deps/klib/khash.h:244-306 | when it changes the size, when it does not, and that the map is the same |
| `HashTable.Table.PutSite` | deps/klib/khash.h:319-335 | the key's own bucket, or one in which a lookup will find it |
| `HashTable.Table.MakeRoom` | deps/klib/khash.h:310-318 | there is room for one more entry; a full table keeps its number of buckets if fewer than half of them hold an entry, and otherwise doubles it |
| `HashTable.Table.Put` | deps/klib/khash.h:307-348 | the key is present in the returned bucket and no other entry has changed; the return code is 0 for a present key, 1 for an empty bucket, 2 for a marked one, and never 2 after a rehash |
| `HashTable.Table.Store` | deps/klib/khash.h:307-348 | put and setting the value update the map at the key |
| `BTree.GetpAux` | deps/klib/kbtree.h:103-117 | the binary search finds the key's place in a node |
| `BTree.SplitKeeps` | deps/klib/kbtree.h:162-178 | splitting a full child changes nothing in order and leaves two minimal halves |
| `BTree.PutAuxAdds` | deps/klib/kbtree.h:179-198 | the key goes where it fits and nothing else changes |
| `BTree.PutAdds` | deps/klib/kbtree.h:199-213 | in any tree, put adds exactly the key and keeps order, equal leaf depth and the bounds t - 1 and 2t - 1 |
| `BTree.FillKeeps` | deps/klib/kbtree.h:262-297 | borrowing from or merging with a neighbour changes nothing in order and leaves the child a key to spare |
| `BTree.DelTakes` | deps/klib/kbtree.h:221-299 | deleting a key, the largest or the smallest takes out exactly that one |
| `BTree.DeleteRemoves` | deps/klib/kbtree.h:300-314 | in any tree, deleting a present key removes exactly it and keeps order, depth and bounds; an empty inner root gives way to its child |
| `BTree.CountKept` | deps/klib/kbtree.h:199-314 | the key count stays the number of keys |
| `BTree.Get` | deps/klib/kbtree.h:119-131 | finds the key exactly when the tree holds it |
| `AvlTree.SizeIsCount` | deps/klib/kavl.h:71-79 | the size field is the number of elements |
| `AvlTree.SingleRights` | deps/klib/kavl.h:99-109 | a single rotation restores balance factors, sizes and order |
| `AvlTree.DoubleRights` | deps/klib/kavl.h:110-127 | so does a double rotation, with its three balance cases |
| `AvlTree.LinkOk` | deps/klib/kavl.h:129-173 | linking in a key keeps the tree sound; the height grows exactly when no node on the path was tilted |
| `AvlTree.InsertOk` | deps/klib/kavl.h:129-173 | insertion adds exactly an absent key in its place and leaves a present one alone |
| `AvlTree.InsertPath` | deps/klib/kavl.h:130-149 | the descent: the count is the rank, the path fits 64 entries, and the remembered node is where the factors start to change |
| `AvlTree.Find` | deps/klib/kavl.h:81-96 | whether the key is there, and its true rank |
| `AvlTree.ShrinkRights` | deps/klib/kavl.h:233-253 | one step of the walk back up rights the node and knows whether it became lower |
| `AvlTree.EraseOk` | deps/klib/kavl.h:175-256 | erasing keeps the tree and removes exactly the key, or changes nothing |
| `AvlTree.ErasePath` | deps/klib/kavl.h:175-231 | the descent: the count is the rank of the erased key or 0, and the path, with the fake root and the successor's path, fits 64 entries |
| `AvlTree.SuccessorPath` | deps/klib/kavl.h:200-222 | the successor's place and the nodes down to its parent, fewer than the node is high |
| `AvlTree.PathsFit` | deps/klib/kavl.h:69 | with fewer than 2^32 nodes a path stays within 64 entries |
| `Allocator.BlocksDisjoint` | deps/klib/kalloc.c:8-20 | blocks never overlap |
| `Allocator.BlockInOneCore` | deps/klib/kalloc.c:8-20 | every block lies inside the body of one core, so no block covers a core header |
| `Allocator.LiveClear` | deps/klib/kalloc.c:107-117 | a live block is clear of every free block, so both panics are out of reach |
| `Allocator.FreedSound` | deps/klib/kalloc.c:104-119 | freeing, with up to two merges, keeps the tiling, the order and the gaps between free blocks |
| `Allocator.FreedLinks` | deps/klib/kalloc.c:104-119 | the links written close the ring again |
| `Allocator.Kmem.FindPlace` | deps/klib/kalloc.c:102-103 | the search loop ends at the free block before the one to be freed, cyclically |
| `Allocator.Kmem.WriteFree` | deps/klib/kalloc.c:104-118 | exactly the words written in each of the four cases |
| `Allocator.Kmem.FreeBlock` | deps/klib/kalloc.c:81-119 | the block becomes free and merges with the blocks it touches, other live blocks stay, the heap stays sound |
| `Allocator.Kmem.Kfree` | deps/klib/kalloc.c:72-119 | the same, and nothing for a null pointer |
| `Allocator.Kmem.MoreCore` | deps/klib/kalloc.c:57-70 | the new core is tiled by its header and a free block of at least the size asked for |
| `Allocator.Kmem.FirstFit` | deps/klib/kalloc.c:130-146 | the search ends with a large enough block, and asks for a core exactly when no free block is large enough |
| `Allocator.Kmem.Carve` | deps/klib/kalloc.c:135-139 | the end of a larger free block becomes live |
| `Allocator.Kmem.Unlink` | deps/klib/kalloc.c:134 | a block of the right size leaves the ring |
| `Allocator.Kmem.Allocate` | deps/klib/kalloc.c:129-147 | a new live block of the requested size, from a new core exactly when no free block is large enough; other live blocks stay, the heap stays sound |
| `Allocator.Kmem.Kmalloc` | deps/klib/kalloc.c:121-147 | the same, and null for a request of zero bytes |
| `ParallelFor.StepKeepsInv` | deps/klib/kthread.c:24-46 | every fetch-and-add and every execution keeps each index accounted for once |
| `ParallelFor.ExactlyOnce` | deps/klib/kthread.c:24-60 | in every interleaving, whatever victims are chosen, no index runs twice, and when all workers have exited each has run exactly once |
| `ParallelFor.NeverStuck` | deps/klib/kthread.c:34-46 | a worker that has not exited can move |
| `ParallelFor.ExitsOnlyInVain` | deps/klib/kthread.c:24-46 | in every interleaving a worker that has exited had run out of its own indices and then tried to steal from a counter that had run out too |
| `Pipeline.StepKeepsInv` | deps/klib/kthread.c:195-226 | entering and leaving a step keep the invariant |
| `Pipeline.StepsAreExclusiveAndOrdered` | deps/klib/kthread.c:195-226 | in every schedule at most one worker is inside a step, batches enter each step in increasing order, and each batch enters its steps one by one |
| `Pipeline.SmallestIsNeverBlocked` | deps/klib/kthread.c:202-212 | the unfinished worker with the smallest index may always start |
| `Pipeline.NeverDeadlocked` | deps/klib/kthread.c:195-226 | while a worker is unfinished, some worker can move |
| `Pipeline.NoBatchIsLost` | deps/klib/kthread.c:217-222 | in every schedule each index handed out is with a worker or has been through the last step; a worker stops only after a step other than the last that gave no data, and moves on only after one that did |
| `Newick.ReadTree` | deps/klib/knhx.c:43-92 | reading a written subtree from any parser state appends its nodes and pushes its root |
| `Newick.ParseFormat` | deps/klib/knhx.c:43-92 | parsing a written tree gives its nodes in post-order with names, parents and child lists |
| `Newick.FormatTree` | deps/klib/knhx.c:121-142 | writing from the node array writes the tree |
| `Newick.RoundTrip` | deps/klib/knhx.c:12-149 | every tree with admissible names, written from its node array, is read back as the same array |
| `Newick.RunClean` | deps/klib/knhx.c:12-41 | no parsed name contains a comma, a closing parenthesis or an invisible character |
| `Newick.ReadAnyTree` | deps/klib/knhx.c:43-92 | what the parser makes of any tree with well-spelled names: leading parentheses of a leaf name open groups, and a leaf with nothing else makes no node |
| `Newick.RoundTripIffNames` | deps/klib/knhx.c:12-149 | a tree whose names hold no colon or bracket is read back unchanged if and only if its names consist of visible characters other than comma and closing parenthesis, and its leaf names are not empty and do not start with a parenthesis |
| `Newick.EmptyLeavesAreLost` | deps/klib/knhx.c:59-88 | a tree with two unnamed leaves is read back as its root alone |
| `Newick.Scan` | deps/klib/knhx.c:12-41 | where a node's text ends and where its name does |
| `Newick.Parse` | deps/klib/knhx.c:43-92 | the parser's loops compute the step specification |

## Left out

- Weak memory: loads and stores are sequentially consistent; `pop_all` stores its tail relaxed (src/queue_spsc.c:175).
- Service start and stop, libuv handles, sockets, threads, timers and logging: foreign calls; only the callbacks' effects on shared state are modelled.
- The receive callbacks, acquire and each release are atomic steps, because the read pool is pushed by both threads; the send path's rings are interleaved step by step.
- The rings in the send protocol and the state of the receive side are values stepped by functions, one step for each atomic access or callback, not objects with aliasing.
- `blocks_inuse` and `bytes_inuse` of the buffer pool: plain shared counters, so conservation is stated over ownership.
- Environment of the receive side: libuv does not read on a closed handle, never reports more bytes than it was offered, and the application alternates acquire and release.
- Latency statistics and log output of the client's receive callback, and its multi-part writes.
- The filter compiler's link types, name resolution and per-protocol generators, variable-length offsets in finish_parse, and the optimiser: tests are atoms that are true, false or rejecting.
- FilterArith.LoadComputes: covers loads at a fixed base (the radio header, and a link header of fixed length); other protocols add checks and variable offsets.
- FilterArith.Compiler.GenLoad: the same.
- FilterArith.Compiler.GenRelation: the protocol checks that such loads attach are left out with them.
- FilterArith.Parser.Parse: arithmetic relations are its only atoms; primitives such as host and port belong to the per-protocol generators.
- FilterArith.CompileProgram: the same.
- FilterCode.Compile: the same; programs of 2^31 instructions or more, whose long jumps would not fit, are outside it, and so is the optimiser.
- FilterMachine.Filter: the source's loop has no step limit; the model stops after a given number of instructions, because a program with a backward jump need not stop. The VLAN auxiliary data of Linux builds is not modelled, and a missing program (accept everything) is not either.
- Constant shifts by 32 or more in the interpreter are undefined in C; the model stops there with a fault of its own.
- BTree.PutAdds: the tree is a value, so update in place, node allocation and the n_nodes count (which merges do not decrement and nothing reads) are not captured; keys are integers.
- BTree.DeleteRemoves: the same; deleting an absent key is outside it.
- AvlTree.InsertOk: the tree is a value, so pointers and update in place are not captured; keys are integers. Erasing the first element without naming a key and the iterators are left out.
- HashTable.Table.Resize: bucket numbers do not wrap at 32 bits, the allocations of one resize succeed or fail together, flags are one value for each bucket instead of two bits in a word, and the sizes are rounded by doubling.
- Allocator.Kmem.Kmalloc: the system always has memory for a new core, clear of other cores and of the base header, and does not put a core's end right at the base header; the fallback to malloc without an allocator is left out, and so are kcalloc and krealloc.
- ParallelFor.ExactlyOnce: the counters do not overflow; the scan for a victim may return any worker.
- Pipeline.StepsAreExclusiveAndOrdered: waiting on the condition variable is a step that is not yet enabled; lost wake-ups are not modelled.
- Newick.RoundTripIffNames: distances and bracketed comments are not modelled, so names with a colon or a bracket are outside it.
- Newick.Scan: the same.
- Newick.Parse: the same; a closing parenthesis without an open one makes the source leave its stack, and here ends the run.
- Remaining files of the tree (numerics, alignment, suffix arrays, compression, I/O, user interface) are not part of this model.
