# KajPS5: a verified model of the emulator's core

KajPS5 emulates a console: it decodes GPU command buffers that live in guest memory, queues them per
hardware queue, keeps a registry of guest shaders, lays out and detiles guest images, tracks which GPU
resources the CPU has written, and runs many guest threads through one native execution context. This
project models those parts in Dafny and proves what they are for.

Each stateful part appears twice. A functional specification says what a step does, as functions over
values; a class updates its fields the way the C++ object does, and every method is proved to do exactly
what the specification says. The theorems are then about all inputs and all runs of the specification.

| files | part of the emulator |
|---|---|
| `Pm4`, `CommandProcessor`, `GpuRuntime` | the resumable PM4 decoder: packets, register files, indirect buffers, memory waits |
| `DecoderBounds`, `SpinReference`, `RegisterReplay` | its limits, its equivalence with a busy-waiting interpreter, its registers as a replay of the trace |
| `WaitMeaning`, `PacketEffects`, `RawPackets` | what its packets mean: conditions, memory and register effects, packets written by hand |
| `MemorySink` | the sink that carries out release-memory and write-data actions |
| `SubmissionQueue`, `QueueAccounting`, `QueueAdmission`, `QueueDrain`, `QueueObject` | graphics and compute queues, draining, admission and accounting |
| `PacketBuilder`, `ControlWords`, `PacketRoundTrip`, `PacketWriter`, `PacketRun`, `PacketProgram` | the packet builders and the command-buffer cursor, and what the decoder makes of any run of builder calls |
| `ShaderIndex`, `ShaderRuntime`, `ShaderTransaction`, `ShaderRelocation`, `ShaderFields`, `ShaderRegistry`, `ShaderPublish` | shader registration as a memory transaction, the two indexes, and resolution at the draw |
| `TileSwizzle`, `SwizzleBits`, `TileTail`, `TileMips`, `TextureSizes`, `SizeMeaning`, `ImageLayout`, `Detile`, `DetileRuns`, `Formats` | tile swizzles, mip chains, image layouts and detiling |
| `ResourceCoherence` | CPU-write tracking of GPU resources |
| `GuestThreads`, `GuestCalls`, `GuestLane` | guest threads as coroutines, their handler calls, and the one execution context they share |
| `StringRead` | bounded string reads from guest memory |
| `Words`, `Arith`, `GuestMemory` | machine words, arithmetic facts, checked guest memory |

Modelling choices. Machine words are integers with explicit bounds; wrap-around and overflow checks are
written out. Guest memory is a map from addresses to bytes with read and write permission, and every
access names a range. What happens outside a component (guest code between two polls, the downstream
sink, the scheduler's answers, handler replies, mapping tokens) is a parameter, so each theorem holds for
every behaviour of it. `hide` statements only narrow what a proof may look at.

Where a plausible property is false of the code, the model keeps the code and states the exact condition:

* a NOP-opcode packet of 0x4001 dwords is read back as one dword (`PacketBuilder.HeaderRoundTrip`);
* the set-base builder shifts its shader type into the header without a mask, so its packet reads back as
  built exactly for types 0 and 1 (`PacketRoundTrip.BaseRoundTrip`; type 2 in `BaseTypeTwoIsLost`);
* a refused instance-count action still changes the register file, so the registers are the replay of the
  trace exactly when the last instance count offered was also the last one accepted
  (`RegisterReplay.InstanceCountReplays`, `SlotIsTheTrace`; one such run in `RefusedInstanceCountStays`);
* linear texture rows are padded to 256 bytes exactly for the power-of-two element sizes; a row of
  twelve-byte texels need not be (`SizeMeaning.LinearPitch`, `TwelveByteRow`);
* resuming a thread whose saved frame is no longer accessible ends the thread but leaves the shared
  context suspended, after which every turn reports a busy lane (`GuestLane.Lane.RunNext`,
  `GuestThreads.FrameCanVanish`).

The bound called `fuel` in `GuestThreads` counts handler calls in one slice. It is a parameter of each
run, not a limit: a slice that ends is the same for every larger bound (`GuestThreads.SliceWithMore`).

## Model

| member | source | states |
|---|---|---|
| Words.DecodeWordsEncodeWords | src/gpu/command_processor.cpp:131-140 | dwords stored little-endian read back as themselves |
| Words.Decode64Encode64 | src/gpu/command_processor.cpp:142-165 | the same for 64-bit values |
| GuestMemory.ReadStored | src/core/memory/guest_memory.cpp:990-998 | a readable range returns what was last stored in it |
| GuestMemory.ReadElsewhere | src/core/memory/guest_memory.cpp:990-998 | a store leaves every disjoint range as it was |
| Words.LittleEndian | src/gpu/runtime.cpp:354-387 | words are stored lowest byte first |
| Pm4.NormalizeRegisterOffset | src/gpu/command_processor.cpp:176-178 | no raw offset from a packet normalises to the synthetic instance-count slot |
| CommandProcessor.PacketStepFacts | src/gpu/command_processor.cpp:826-883 | a packet that takes effect is charged exactly its size, within the dword budget, and a wait it raises carries that size |
| CommandProcessor.ExecuteFacts | src/gpu/command_processor.cpp:884-1148 | carrying out a packet never changes the dword count or exceeds the action limit, and a wait it raises carries the packet's size |
| CommandProcessor.OpenFrame | src/gpu/command_processor.cpp:750-777 | a frame opens only below the depth limit, not twice for the same address and size, and starts at offset zero; a refusal is an argument, memory or resource error |
| QueueAdmission.OpensExactly | src/gpu/command_processor.cpp:750-777 | a buffer opens exactly when the stack has room, it is not open already, and it is aligned, non-empty, within the limit and readable; its words are those of guest memory; every other buffer is refused for the first of these that fails |
| QueueAdmission.BeginsExactly | src/gpu/command_processor.cpp:1401-1430 | a new cursor can run exactly when its buffer can be opened and its limits are not zero; otherwise its result names the reason |
| PacketEffects.HeaderTypes | src/gpu/command_processor.cpp:846-868 | a type-2 word is a packet of its own, charged one word; types 0 and 1 are malformed |
| PacketEffects.EmitExactly | src/gpu/command_processor.cpp:462-505 | a submission goes through exactly when there is room and the sink accepts it; the sink's effects stay either way and only an accepted action is logged |
| PacketEffects.OffsetBits | src/gpu/command_processor.cpp:176-178 | a normalised register offset is the raw one with bits 28 to 30 cleared |
| PacketEffects.RegistersEffect | src/gpu/command_processor.cpp:589-608 | consecutive words of an accepted register packet end up in consecutive registers, the later one where two meet |
| PacketEffects.RegistersLogged | src/gpu/command_processor.cpp:570-641 | each register write is submitted by itself with its file, offset, value, table and place in the table |
| PacketEffects.CallEnters | src/gpu/command_processor.cpp:804-819 | an accepted call enters its target unless that is empty |
| WaitMeaning.AndBit | src/gpu/command_processor.cpp:549 | a bit of the masked word is set exactly when it is set in the word and in the mask |
| WaitMeaning.MaskedWord | src/gpu/command_processor.cpp:549 | so there is exactly one masked word |
| WaitMeaning.ParkedUntilMet | src/gpu/command_processor.cpp:779-802 | a parked cursor is released exactly when the masked word in memory is below, at most, equal to, different from, at least or above its reference, by condition 1 to 6, and stays parked otherwise |
| WaitMeaning.ParkedOnWholeWord | src/gpu/command_processor.cpp:547-568 | over the full width, each condition number is its own comparison of the stored value |
| WaitMeaning.FirstPoll | src/gpu/command_processor.cpp:708-748 | the first poll refuses bad operands and unreadable words, and an accepted wait goes on exactly when its condition is met and otherwise parks with all its operands |
| WaitMeaning.UnconditionalWait | src/gpu/command_processor.cpp:708-748 | conditions 0 and 7 never look at memory and never park |
| WaitMeaning.BranchSelects | src/gpu/command_processor.cpp:1092-1123 | a conditional branch enters its first buffer when the condition is met, its second when it is not and the mode has one, and no empty buffer |
| RawPackets.RawReadsBack | src/gpu/command_processor.cpp:884-1148 | packets assembled by hand in the forms the builders do not use decode to their operands: waits, register tables, indirect dispatches, standard writes and releases, conditional branches |
| RawPackets.LengthsAreExact | src/gpu/command_processor.cpp:884-1148 | for every opcode, the lengths that are understood, the ones that are malformed, and what is unsupported |
| RawPackets.PlainForms | src/gpu/command_processor.cpp:999-1060 | index type, indirect draws with at most eight values, and the indexed register write, by the place of their words |
| DecoderBounds.RunFramesBounded | src/gpu/command_processor.cpp:821-1156 | from a bounded stack the decoder keeps every limit: frame count at most the depth limit plus one, distinct frames, offsets within the copied words, dwords and actions within budget; a wait it parks at is the packet at the top frame's offset, and the last action submitted is that wait with the value that failed its first poll |
| DecoderBounds.BeginWellFormed | src/gpu/command_processor.cpp:1401-1430 | a new cursor satisfies the decoder's invariant |
| DecoderBounds.ResumeWellFormed | src/gpu/command_processor.cpp:779-802 | every resume keeps the invariant, so a parked wait always fits its frame and the malformed branch is unreachable; a parked cursor's last action stays its own wait |
| SpinReference.WaitAgrees | src/gpu/command_processor.cpp:708-748 | parking at a wait and polling it on each resume ends exactly where polling in place ends |
| SpinReference.StackAgrees | src/gpu/command_processor.cpp:821-881 | the explicit frame stack does the work of recursive calls, at every depth |
| SpinReference.BlockingRefinesSpinning | src/gpu/command_processor.cpp:1432-1454 | for every command stream and every change of memory and registers between resumes, the resumed cursor submits exactly the actions of an interpreter that calls buffers recursively and busy-waits, with the same counts, worlds and final status |
| RegisterReplay.InstanceCountReplays | src/gpu/command_processor.cpp:1009-1020 | an instance-count packet replays exactly when there is room for its action and the sink takes it, or the count was there already |
| RegisterReplay.RefusedInstanceCountStays | src/gpu/command_processor.cpp:1009-1020 | a submitted one-packet buffer and a refusing sink: the count is in the registers and the trace is empty |
| RegisterReplay.ApplyRegistersReplays | src/gpu/command_processor.cpp:570-641 | a run of register writes leaves the last-write-wins replay of the actions it submitted |
| RegisterReplay.ResumeReplays | src/gpu/command_processor.cpp:1432-1454 | one resume changes all registers exactly by the replay of its new actions and of the instance count it is refused, if any |
| RegisterReplay.OffersExplain | src/gpu/command_processor.cpp:570-641 | after any run the whole register file is the replay of the submitted actions and the refused instance counts, in order, and the trace is the accepted ones |
| RegisterReplay.RegistersAreTheTrace | src/gpu/command_processor.cpp:1456-1469 | after any run of submissions, resumes and outside changes, reading any raw offset in any space gives what the submitted actions last wrote |
| RegisterReplay.SlotIsTheTrace | src/gpu/command_processor.cpp:1009-1020 | after any run the registers, instance-count slot included, are the replay of the trace exactly when the last count offered was the last accepted, and so whenever none was refused |
| GpuRuntime.Runtime.Emit | src/gpu/command_processor.cpp:462-505 | submits the action with its shader bindings and records it, or reports the limit or the sink's status, as specified |
| GpuRuntime.Runtime.ApplyRegisterWrite | src/gpu/command_processor.cpp:570-587 | stores the register only after its action is accepted |
| GpuRuntime.Runtime.ApplyRegisterWrites | src/gpu/command_processor.cpp:589-608 | the loop over a packet's registers equals the recursive specification, stopping at the first refusal |
| GpuRuntime.Runtime.ReadDwords | src/gpu/command_processor.cpp:507-529 | returns the words in memory, or the status of the check that failed |
| GpuRuntime.Runtime.ApplyIndirectRegisters | src/gpu/command_processor.cpp:610-641 | loads a register table from memory within the limits |
| GpuRuntime.Runtime.ProcessWait | src/gpu/command_processor.cpp:708-748 | logs the wait with its first-poll value and parks exactly when the comparison fails |
| GpuRuntime.Runtime.SnapshotFrame | src/gpu/command_processor.cpp:750-777 | copies the buffer onto the frame stack or refuses it with the specified status |
| GpuRuntime.Runtime.ProcessIndirectBuffer | src/gpu/command_processor.cpp:804-819 | logs the call, then enters the buffer unless it is empty |
| GpuRuntime.Runtime.ProcessPacket | src/gpu/command_processor.cpp:884-1148 | carries out one decoded packet as the specification's step |
| GpuRuntime.Runtime.ProcessOnePacket | src/gpu/command_processor.cpp:826-883 | checks, charges and executes the packet at the top frame's offset |
| GpuRuntime.Runtime.ProcessFrames | src/gpu/command_processor.cpp:821-1156 | the loop terminates and equals the specification: finished, parked at a wait, or halted with a status and address |
| GpuRuntime.Runtime.ResumePendingWait | src/gpu/command_processor.cpp:779-802 | re-polls the parked wait: steps over it, faults, or stays blocked |
| GpuRuntime.Runtime.BeginCommandBuffer | src/gpu/command_processor.cpp:1401-1430 | a valid cursor over the buffer, terminal when it cannot be opened |
| GpuRuntime.Runtime.ResumeCommandBuffer | src/gpu/command_processor.cpp:1432-1454 | one resume equals the specification and keeps the cursor valid |
| MemorySink.MemorySinkNeverBlocks | src/gpu/command_processor.cpp:1270-1392 | the memory sink never answers blocked over a sink that never does |
| MemorySink.SubmitExactly | src/gpu/command_processor.cpp:1270-1392 | an unusable action reaches nobody; any other goes downstream first, whose effects and refusals stand, and only on acceptance is the store made on top |
| MemorySink.ReleaseWakesWaiter | src/gpu/command_processor.cpp:1276-1338 | an accepted release unblocks a cursor parked on equality with the released value at that address |
| MemorySink.WriteDataLands | src/gpu/command_processor.cpp:1339-1392 | an accepted incrementing write leaves exactly its words at its destination |
| PacketEffects.ReleaseEffect | src/gpu/command_processor.cpp:1276-1338 | executing a built release leaves exactly the memory its arguments ask for: nothing, the low word, the value or the next timestamp, which then advances |
| PacketEffects.ReleaseDecidesWait | src/gpu/command_processor.cpp:708-802 | after an executed release, a cursor parked on that word goes on exactly when the released value meets its condition |
| PacketEffects.WriteEffect | src/gpu/command_processor.cpp:1339-1392 | executing a built write leaves all its words, or only the last one, at the aligned address, or nothing for a destination that is not memory |
| RawPackets.StandardWriteStores | src/gpu/command_processor.cpp:1339-1392 | what a standard write stores, by its own field layout |
| RawPackets.StandardReleaseStores | src/gpu/command_processor.cpp:1276-1338 | what a standard release stores, and every refusal |
| RawPackets.WrappedReleaseStores | src/gpu/command_processor.cpp:1276-1338 | the same for a hand-written wrapped release, packed or older field layout |
| SubmissionQueue.BlockedWithoutProgress | src/gpu/submission_queue.cpp:221-247 | a resume that blocks without submitting changed nothing at all |
| SubmissionQueue.PassWithoutProgress | src/gpu/submission_queue.cpp:249-260 | a pass without progress leaves every non-empty queue waiting on a comparison that is false |
| SubmissionQueue.StuckPass | src/gpu/submission_queue.cpp:249-260 | conversely, such a state makes no progress |
| SubmissionQueue.DrainReachesFixedPoint | src/gpu/submission_queue.cpp:217-274 | a settled drain leaves each front cursor on a false wait, and draining again submits, finishes and moves nothing |
| QueueAccounting.SecondDrain | src/gpu/submission_queue.cpp:217-274 | a second drain of the settled queue, empty lanes erased, submits and finishes nothing and returns the same lanes, counters and world |
| QueueDrain.DrainSplits | src/gpu/submission_queue.cpp:249-274 | a drain of a + b passes is a drain of a passes followed, unless that settled, by one of b passes: same finished work, same queues, same world |
| QueueDrain.UnsettledDrainWorked | src/gpu/submission_queue.cpp:249-261 | a drain that gives up has finished submissions and had actions accepted, together at least one for each pass it was allowed |
| QueueDrain.PassIsOrdered | src/gpu/submission_queue.cpp:249-260 | one pass finishes graphics work first, then compute owners in increasing order |
| QueueDrain.ResumeCounted | src/gpu/command_processor.cpp:1432-1454 | a resume adds to its count exactly the actions its sink accepted meanwhile |
| QueueAccounting.EnqueueConserves | src/gpu/submission_queue.cpp:177-215 | one buffer is admitted whole under the next id within the limits, or nothing that counts changes |
| QueueAccounting.BatchConserves | src/gpu/submission_queue.cpp:101-175 | a batch enters whole with consecutive ids, or queues, counters and ids are untouched |
| QueueAdmission.EnqueueExactly | src/gpu/submission_queue.cpp:177-215 | one buffer is admitted exactly when the limits leave room, it can be started and an id is left; otherwise the first of these that fails gives the reason |
| QueueAdmission.BatchExactly | src/gpu/submission_queue.cpp:101-175 | a batch is admitted exactly when it is not empty, fits as a whole, has ids and every buffer can be started; otherwise the first buffer that cannot gives the reason |
| QueueAdmission.BatchCharge | src/gpu/submission_queue.cpp:119-126 | the charge of a batch is additive over its buffers |
| QueueAccounting.QueueConserves | src/gpu/submission_queue.cpp:221-247 | one queue's turn loses and duplicates no submission and finishes them in order |
| QueueAccounting.DrainIsFifo | src/gpu/submission_queue.cpp:217-274 | finished ids followed by pending ids are the ids each lane held, in order |
| QueueAccounting.DrainConserves | src/gpu/submission_queue.cpp:217-274 | draining keeps both counters equal to the sums over the queues and within the stored limits |
| QueueAccounting.EventAccounted | src/gpu/submission_queue.cpp:73-274 | every submission, batch, drain and outside change keeps the accounting |
| QueueAccounting.HappenAll | src/gpu/submission_queue.cpp:73-274 | so from any accounted state every run stays accounted |
| QueueAccounting.EveryRunAccounted | src/gpu/submission_queue.cpp:38-274 | on every run of a newly made queue accepted equals finished plus pending, ids count up and are never reused, each lane finishes in FIFO order |
| QueueObject.Queues.EnqueueOne | src/gpu/submission_queue.cpp:90-99 | the object's single submission equals the specification and keeps the accounting invariant |
| QueueObject.Queues.EnqueueMany | src/gpu/submission_queue.cpp:101-175 | the object's batch equals the specification |
| QueueObject.Queues.TotalDwords | src/gpu/submission_queue.cpp:117-124 | the checked sum is the true sum, or none when it leaves 64 bits |
| QueueObject.Queues.OpenBuffers | src/gpu/submission_queue.cpp:137-150 | every cursor of the batch, or the first status that fails |
| QueueObject.Queues.ProcessItems | src/gpu/submission_queue.cpp:221-247 | the resume loop on one queue equals its specification, with the statistics it adds up |
| QueueObject.Queues.RunComputeLanes | src/gpu/submission_queue.cpp:252-255 | compute queues run in owner order, each once |
| QueueObject.Queues.RunPass | src/gpu/submission_queue.cpp:250-260 | graphics first, then compute, and whether anything progressed |
| QueueObject.Queues.EraseEmptyLanes | src/gpu/submission_queue.cpp:263-272 | empty compute queues go, blocked queues are counted |
| QueueObject.Queues.DrainQueues | src/gpu/submission_queue.cpp:217-274 | the object's drain equals the specification and reports completed, failed, pending and blocked exactly |
| PacketBuilder.HeaderRoundTrip | src/gpu/runtime.cpp:319-332 | a header parses back to its own opcode, register and length, if and only if it is not a NOP of the greatest length |
| PacketRoundTrip.RegisterRoundTrip | src/gpu/runtime.cpp:1295-1308 | built register packets decode to the writes their arguments denote |
| PacketRoundTrip.IndexRoundTrip | src/gpu/runtime.cpp:1309-1333 | index-buffer and instance-count packets likewise |
| PacketRoundTrip.DrawRoundTrip | src/gpu/runtime.cpp:1334-1377 | draw packets likewise |
| PacketRoundTrip.DispatchRoundTrip | src/gpu/runtime.cpp:1266-1276 | dispatch packets likewise |
| PacketRoundTrip.AddressRoundTrip | src/gpu/runtime.cpp:1392-1531 | jump, predication and level-of-detail packets likewise, at the aligned address |
| PacketRoundTrip.BaseRoundTrip | src/gpu/runtime.cpp:1378-1385 | a set-base packet reads back with its own opcode, register, length and arguments if and only if its shader type is 0 or 1 |
| PacketRoundTrip.BaseHeader | src/gpu/runtime.cpp:1378-1385 | its header alone survives exactly for the types that set no other bit of the register, opcode and length fields |
| PacketRoundTrip.BaseTypeTwoIsLost | src/gpu/runtime.cpp:1378-1385 | type 2 reads back with register 1 and as type 0 |
| PacketRoundTrip.WriteDataRoundTrip | src/gpu/runtime.cpp:1420-1454 | a write-data packet decodes to its destination, control word and count and carries the words that were in memory at its source |
| ControlWords.WriteFields | src/gpu/runtime.cpp:1431-1446 | the control word of a write holds destination, cache policy and increment in a byte each, and the confirm bit unless the destination is zero |
| ControlWords.WriteStores | src/gpu/command_processor.cpp:1339-1392 | what a built write stores, from its arguments alone |
| PacketRoundTrip.ReleaseRoundTrip | src/gpu/runtime.cpp:1455-1495 | a release packet decodes to its aligned address, data, both control words and interrupt context |
| PacketRoundTrip.ReleaseStores | src/gpu/command_processor.cpp:1276-1338 | the denoted release stores the selected width of its data at the aligned address, or nothing |
| ControlWords.ReleaseControlFields | src/gpu/runtime.cpp:1472-1487 | event code, event index, cache control and cache policy of a release, each in its field |
| ControlWords.GcrBits | src/gpu/runtime.cpp:1472-1474 | requesting a writeback sets the invalidation bit and no other |
| ControlWords.ReleaseSelectFields | src/gpu/runtime.cpp:1488-1489 | destination, interrupt and data selection, each in its field |
| ControlWords.ReleaseData | src/gpu/runtime.cpp:1475-1481 | which data and address a release carries |
| ControlWords.WaitFields | src/gpu/runtime.cpp:338-353 | compare function, operation and cache policy of a wait, each in its field |
| ControlWords.PollUnits | src/gpu/runtime.cpp:334-336 | the poll interval counts sixteen cycles and saturates |
| ControlWords.EventFields | src/gpu/runtime.cpp:1496-1515 | event code and index of an event packet |
| ControlWords.DispatchBits | src/gpu/runtime.cpp:1266-1275 | a dispatch modifier sets bits 0 and 6 and passes bits 3, 4, 5, 13 and 15 |
| ControlWords.DrawModifierBits | src/gpu/runtime.cpp:328-332 | a draw initiator follows bit 8 of the modifier while bit 32 is clear |
| PacketRun.BuildsExactly | src/gpu/runtime.cpp:1278-1567 | for every packet kind, exactly which arguments are refused, and as what |
| PacketRoundTrip.EventRoundTrip | src/gpu/runtime.cpp:1496-1514 | event packets decode to their event, address and control word |
| PacketRoundTrip.WaitRoundTrip | src/gpu/runtime.cpp:1532-1567 | wait packets decode to their address, mask, reference, whole control word and poll interval, in both widths |
| PacketWriter.CommandBufferWriter.PacketBytes | src/gpu/runtime.cpp:1233-1241 | the loop writes the little-endian bytes of the packet |
| PacketRun.NopsExactly | src/gpu/runtime.cpp:1251-1264 | a NOP packet is built exactly for 2 to 0x4001 dwords |
| PacketWriter.CommandBufferWriter.AppendPacket | src/gpu/runtime.cpp:1169-1249 | appends equal the specification, and every refusal leaves memory as it was |
| PacketWriter.AppendStep | src/gpu/runtime.cpp:1169-1249 | an append moves the cursor by the packet's size, stays clear of the reserved dwords and changes only the packet and the cursor field |
| PacketWriter.AppendExactly | src/gpu/runtime.cpp:1169-1249 | an append succeeds exactly when its arguments, the cursor fields, the room left of the reserved words and the write permissions allow it; otherwise the first that fails gives the status |
| PacketWriter.AppendAllWritten | src/gpu/runtime.cpp:1169-1249 | after any sequence of appends the cursor has moved over exactly the packets, clear of the reserved dwords; where the area can be read it holds them in order, and nothing else changed |
| PacketRun.RequestReadsBack | src/gpu/runtime.cpp:1251-1567 | a built packet reads back with its own header and decodes to what its arguments denote if and only if it is not a NOP-opcode packet of 0x4001 dwords and not a set-base packet of a type above 1 |
| PacketRun.RunAnswers | src/gpu/runtime.cpp:1278-1293 | each packet of a run of calls is built from its own arguments against the memory the earlier calls left |
| PacketRun.WalkMeetsPackets | src/gpu/command_processor.cpp:843-883 | stepping by its own size rule from the first word, the decoder meets every packet at its start and ends at the last word |
| PacketRun.DecoderReadsRequests | src/gpu/runtime.cpp:1569-1584 | after any run of successful calls the decoder's walk from the old cursor reaches the k-th packet, which has that call's opcode and register and decodes to what the call denotes, and ends at the new cursor; the packet-size query agrees at every packet |
| PacketProgram.ProgramIsSpun | src/gpu/command_processor.cpp:821-883 | interpreting the words of the buffer is carrying out the denoted instructions in order |
| PacketProgram.CallsAreCarriedOut | src/gpu/command_processor.cpp:1401-1454 | a cursor begun at the old buffer cursor and resumed through any outside steps does exactly what the argument lists denote |
| ShaderRuntime.FindPair | src/gpu/shader_runtime.cpp:303-319 | the last entries that hold the stage's two registers, or none when one of them is missing |
| ShaderRuntime.FindFallback | src/gpu/shader_runtime.cpp:322-347 | the first entry that starts another known pair whose partner is in the table, with the adjacent entry as partner where it fits and else the first that does; none when no entry does |
| ShaderRuntime.PatchProgram | src/gpu/shader_runtime.cpp:571-600 | the program address is the code address plus the encoded offset, encodable, and bound exactly when it lies in the image |
| ShaderRuntime.Plan | src/gpu/shader_runtime.cpp:393-634 | a plan touches only ranges that can be read and written, and its record is consistent |
| ShaderFields.HeaderExactly | src/gpu/shader_runtime.cpp:447-480 | which headers are accepted, by the words at their places in memory, and the status of every other one |
| ShaderFields.PlannedRecord | src/gpu/shader_runtime.cpp:482-629 | the record holds the code size, type and semantics count at header offsets 0x44, 0x5a and 0x50 and the absolute pointers of 0x08 and 0x30, its announced semantics are readable, and its program comes from the table at 0x20 with the count at 0x5c |
| ShaderFields.SemanticsExactly | src/gpu/shader_runtime.cpp:529-538 | announced semantics are refused exactly when their pointer is zero or they cannot be read, four bytes each |
| ShaderFields.PatchesExactly | src/gpu/shader_runtime.cpp:210-223 | a patch is planned exactly when it is not empty and meets no earlier one |
| ShaderFields.FrontTables | src/gpu/shader_runtime.cpp:559-570 | a table without any program pair is accepted exactly for the two front-half types that start with one of their own registers |
| ShaderFields.KnownPairs | src/gpu/shader_runtime.cpp:322-347 | the pairs a fallback may start |
| ShaderFields.TypeStages | src/gpu/shader_runtime.cpp:225-248 | the program registers of each binary type are those of its stage |
| ShaderTransaction.PlanApart | src/gpu/shader_runtime.cpp:210-223 | the planned ranges are pairwise disjoint |
| ShaderRelocation.PlanRelocates | src/gpu/shader_runtime.cpp:482-617 | after commit every non-zero pointer of the header and of its user data is absolute, the code field holds the code address and the destination the header address |
| ShaderFields.PointersAbsolute | src/gpu/shader_runtime.cpp:482-527 | after commit the six header pointers and the five of the user data, by offset, hold their absolute values |
| ShaderTransaction.StoreAllLands | src/gpu/shader_runtime.cpp:674-714 | each planned range ends up with its planned value |
| ShaderTransaction.StoreAllElsewhere | src/gpu/shader_runtime.cpp:674-714 | nothing else changes |
| ShaderTransaction.UndoStore | src/gpu/shader_runtime.cpp:700-713 | writing the saved bytes back restores memory, partial writes included |
| ShaderTransaction.PublishKeepsIndex | src/gpu/shader_runtime.cpp:636-667 | publishing a record keeps the two indexes in one-to-one correspondence and makes the record findable |
| ShaderFields.PublishExactly | src/gpu/shader_runtime.cpp:636-667 | publication is refused exactly when another image's program starts at this code, or this program starts at another image's program or code |
| ShaderTransaction.LookupNeverRejects | src/gpu/shader_runtime.cpp:733-746 | the cross-checks of a program lookup never reject, and no two records share a program |
| ShaderTransaction.RecompileIsUnambiguous | src/gpu/shader_runtime.cpp:789-803 | the two-step lookup denotes at most one record |
| ShaderRegistry.Registry.WriteRange | src/gpu/shader_runtime.cpp:675-699 | one range is written whole, in part, or not at all, as the fault says |
| ShaderRegistry.Registry.CommitPlan | src/gpu/shader_runtime.cpp:674-714 | every range is written, or memory is exactly as before, whichever write fails and however much of it was done |
| ShaderRegistry.Registry.RollBack | src/gpu/shader_runtime.cpp:700-713 | writing the saved bytes back, newest first, restores memory |
| ShaderRegistry.Registry.CreateShader | src/gpu/shader_runtime.cpp:393-723 | answers success exactly when arguments, plan, publication and writes allow it, and otherwise with the first failure; memory and both indexes change together on success and not at all on failure, and the index invariant holds on every run |
| ShaderPublish.ProgramRoundTrip | src/gpu/command_processor.cpp:208-227 | the register pair decodes back to the program address |
| ShaderPublish.TablePatched | src/gpu/shader_runtime.cpp:571-600 | after commit the pair in the guest table holds the program's address |
| ShaderPublish.LoadedPair | src/gpu/command_processor.cpp:610-641 | loading the table puts the pair into the shader registers |
| ShaderFields.SnapshotExactly | src/gpu/command_processor.cpp:208-240 | a draw or dispatch carries a program for a stage exactly when both registers of the stage are set to a non-zero address |
| ShaderPublish.EmittedBinding | src/gpu/shader_runtime.cpp:748-783 | a draw or dispatch resolves that address to the registered record |
| ShaderPublish.PublishedProgramResolves | src/gpu/shader_runtime.cpp:748-783 | from registration through table load to the draw, the submitted action is bound to exactly that record, address, code, header and offset |
| TileSwizzle.SwizzleLinear | src/gpu/tile_layout.cpp:903-971 | the render-target swizzle is linear over XOR for every element size |
| TileSwizzle.SwizzleInjective | src/gpu/tile_layout.cpp:903-971 | inside a block, different elements have different offsets |
| TileSwizzle.OffsetInBlock | src/gpu/tile_layout.cpp:1174-1271 | every offset is inside the 64 KiB block and element-aligned |
| TileSwizzle.InBlockInjective | src/gpu/tile_layout.cpp:1278-1323 | the block's XOR pattern keeps that so |
| SwizzleBits.TexelBit | src/gpu/tile_layout.cpp:903-971 | for every element size, each of the sixteen offset bits is the XOR of the named bits of the texel's coordinates in the whole surface |
| SwizzleBits.RunTogether | src/gpu/tile_layout.cpp:903-971 | eight bytes of one-byte texels, or sixteen bytes of larger ones, lie consecutively and in order |
| TileTail.TablePlaced | src/gpu/tile_layout.cpp:317-400 | in every tail table, levels shrinking from the largest tail size lie inside the block and pairwise apart |
| TileTail.TailFollowsRule | src/gpu/tile_layout.cpp:317-400 | all four tail tables are one rule, scaled to the block: seven single cells, then alternating powers of two across and down |
| TileTail.ShrinksWithin | src/gpu/tile_layout.cpp:24-26 | a level that fits keeps fitting, shrunk, at every later level |
| TileMips.TextureBlock | src/gpu/tile_layout.cpp:411-439 | block dimensions times element size are the block size, for every format and blocked mode |
| TileMips.VolumeBlock | src/gpu/tile_layout.cpp:1083-1172 | the same for volumes, whose block exists exactly when the 2D one does |
| SizeMeaning.TileModes | src/gpu/tile_layout.cpp:411-439 | the block size, element size and tail of every tile mode, and which formats each mode takes |
| SizeMeaning.LevelHalves | src/gpu/tile_layout.cpp:24-26 | each level is half the one above it, rounded up |
| SizeMeaning.PaddedExactly | src/gpu/tile_layout.cpp:491-506 | a full level is padded to whole blocks and no further |
| SizeMeaning.TailExactly | src/gpu/tile_layout.cpp:467-489 | the tail starts at the first level that fits half a block, or 64 by 128 for small depth formats, and that the table can hold |
| SizeMeaning.TailMipExactly | src/gpu/tile_layout.cpp:509-532 | inside the tail a level has the units plain halving leaves |
| TileMips.FullLevelsNeverCollide | src/gpu/tile_layout.cpp:491-506 | full levels are block-aligned, contiguous, disjoint from the tail block and each other, and add up to the total |
| TileMips.TailLevelsNeverCollide | src/gpu/tile_layout.cpp:509-532 | tail levels are disjoint rectangles inside the tail block |
| TileMips.TailMipsNeverCollide | src/gpu/tile_layout.cpp:509-532 | also with the shifted-down sizes, which never exceed the rounded-up ones |
| TileMips.InTailIndex | src/gpu/tile_layout.cpp:514-516 | table indexes are in range |
| TileMips.FindFirstTail | src/gpu/tile_layout.cpp:480-489 | the loop finds the first level that fits the tail |
| TileMips.PlaceFullLevels | src/gpu/tile_layout.cpp:491-506 | the descending loop places the full levels and fails exactly when the total leaves 32 bits |
| TileMips.PlaceTailLevels | src/gpu/tile_layout.cpp:508-532 | the tail loop's size checks never fail |
| TileMips.SetMacroMipLayout | src/gpu/tile_layout.cpp:467-536 | a layout exists exactly when the chain fits in 32 bits, and records each level's place |
| TextureSizes.StackLevels | src/gpu/tile_layout.cpp:441-465 | levels without a tail are placed smallest first, and the loop fails exactly when they leave 32 bits |
| TextureSizes.FlatLevelsApart | src/gpu/tile_layout.cpp:441-465 | such levels abut and never overlap |
| SizeMeaning.LinearPitch | src/gpu/tile_layout.cpp:28-45 | linear rows of every power-of-two element size are the least multiple of 256 bytes that holds the level |
| SizeMeaning.MicroExactly | src/gpu/tile_layout.cpp:441-465 | a level in 256-byte blocks is padded to whole blocks each way and no further |
| SizeMeaning.TwelveByteRow | src/gpu/tile_layout.cpp:20-45 | a row of one twelve-byte texel is not padded |
| SizeMeaning.MaskUpExactly | src/gpu/tile_layout.cpp:20-22 | clearing low bits rounds up to the least multiple, for powers of two |
| TextureSizes.TextureSize | src/gpu/tile_layout.cpp:1563-1649 | in every tile mode, linear and 256-byte included, a texture has a layout exactly when its size, format and chain allow it, and the layout is the one its mode prescribes |
| TileMips.MipsNeverCollide | src/gpu/tile_layout.cpp:467-536 | any two levels of a returned layout have separate bytes, or separate rectangles of the tail block |
| TileMips.MeasureLevels | src/gpu/tile_layout.cpp:584-598 | the ascending loop finds the tail and the slice size |
| TileMips.PlaceVolume | src/gpu/tile_layout.cpp:600-622 | each level gets its place, and the descending sum ends at the slice size |
| TileMips.TextureVolumeLayout | src/gpu/tile_layout.cpp:538-638 | a volume has a layout exactly when its arguments are valid, so the closing size comparison never fails, and no 64-bit product wraps |
| TileMips.VolumeLevelsNeverCollide | src/gpu/tile_layout.cpp:538-625 | any two levels of a returned volume layout have separate storage |
| TileMips.TailTexelsApart | src/gpu/tile_layout.cpp:903-971 | in a render target, texels of different tail levels own different bytes of the tail block |
| ImageLayout.Multiply | src/gpu/image_layout.cpp:24-28 | the quotient test refuses exactly the products that leave 64 bits |
| ImageLayout.Add | src/gpu/image_layout.cpp:18-22 | the same for sums |
| SizeMeaning.ArgumentsExactly | src/gpu/image_layout.cpp:57-135 | exactly which image descriptions are well formed |
| SizeMeaning.ImageUnits | src/gpu/image_layout.cpp:86-135 | units of plain and compressed images, depth of volumes, faces of cubes |
| SizeMeaning.MipHalves | src/gpu/image_layout.cpp:30-32 | each image level is half the one above it, rounded down, but never empty |
| SizeMeaning.AliasKeepsSize | src/gpu/format.cpp:136-150 | a storage alias has the size of its view and is its own alias; only unknown formats have none |
| ImageLayout.CalculateGuestImageLayout | src/gpu/image_layout.cpp:57-250 | the level loop and every refusal equal the specification, status by status |
| ImageLayout.BuildMipExact | src/gpu/image_layout.cpp:198-243 | a level is refused exactly when its pitches are impossible or the true total exceeds the bound, for the first reason that applies, and otherwise equals unbounded arithmetic |
| ImageLayout.LinearLayoutExact | src/gpu/image_layout.cpp:189-250 | a linear image has a layout exactly when its pitches are possible, its true size is at most 512 MiB and its end has an address; its levels abut from zero to the total |
| ImageLayout.CellsDisjoint | src/gpu/image_layout.cpp:197-250 | distinct (level, layer, slice, row, column) cells own disjoint bytes inside the total |
| Detile.PlanIsOk | src/gpu/detile.cpp:59-139 | an accepted plan agrees with both buffers: whole blocks cover the image, rows cover the elements |
| Detile.OffsetsDefined | src/gpu/detile.cpp:141-173 | no check of the address calculation fails for an active element, and the result is the unbounded formula |
| Detile.TiledInside | src/gpu/detile.cpp:141-173 | tiled offsets are element-aligned and in bounds |
| Detile.TiledBytesInjective | src/gpu/detile.cpp:141-173 | over the whole image, different bytes of different elements have different tiled offsets |
| DetileRuns.TiledPosition | src/gpu/detile.cpp:141-173 | blocks follow each other row by row, and inside its block every bit of a texel's place is the XOR of named coordinate bits |
| DetileRuns.DetiledRun | src/gpu/detile.cpp:207-219 | a run of texels along a row is copied byte by byte from consecutive tiled bytes |
| Detile.ValidateTexelOffsets | src/gpu/detile.cpp:175-193 | the loops succeed exactly when every active element's offsets are valid |
| Detile.TexelsOk | src/gpu/detile.cpp:175-193 | for an accepted plan they always are |
| Detile.CopyTexels | src/gpu/detile.cpp:207-219 | the three loops leave every element in its linear place, row padding and every byte outside the destination unchanged |
| Detile.DetileRenderTarget64KB | src/gpu/detile.cpp:197-220 | for any two windows, overlapping ones included, succeeds exactly when a plan exists, with the whole destination stated; on failure nothing is touched |
| Detile.DetileUndoesTiling | src/gpu/detile.cpp:197-220 | detiling any tiling made with the map gives the image back |
| Detile.TilingExists | src/gpu/detile.cpp:141-173 | every image has such a tiling |
| Detile.LayoutAccepted | src/gpu/image_layout.cpp:137-184 | every tiled layout the image code returns is accepted for buffers of its stated sizes |
| DetileRuns.PlansExactly | src/gpu/detile.cpp:59-139 | a render-target layout is planned exactly for separate buffers of its two sizes, over its columns and rows of blocks, and the status of every other pair of buffers |
| DetileRuns.TargetExactly | src/gpu/image_layout.cpp:137-184 | a render target has a layout exactly when its dimensions, true sizes and end address are in range, and what that layout holds |
| ResourceCoherence.OverlapShares | src/gpu/resource_coherence.cpp:25-31 | the overlap test holds exactly when the ranges share a byte |
| ResourceCoherence.IdsAlwaysFresh | src/gpu/resource_coherence.cpp:71-95 | on every run a new identifier is never in use |
| ResourceCoherence.HighestIsMaximum | src/gpu/resource_coherence.cpp:192-195 | the tracked generation is the maximum of the start value and all delivered overlapping ones |
| ResourceCoherence.NoWriteIsLost | src/gpu/resource_coherence.cpp:126-204 | over every order of events each record's generation is that maximum, a record is imprecise exactly when precision was lost, and clean exactly when it is precise and was acknowledged at that generation |
| ResourceCoherence.NeverCleanAgain | src/gpu/resource_coherence.cpp:196-202 | an imprecise record stays imprecise and dirty whatever follows |
| ResourceCoherence.RangeExactly | src/gpu/resource_coherence.cpp:18-23 | a range is valid exactly when it is not empty and its end is an address |
| ResourceCoherence.RegisterExactly | src/gpu/resource_coherence.cpp:53-96 | a resource is registered exactly when its range is valid and mapped and an unused id is left, and starts dirty |
| ResourceCoherence.AcknowledgeExactly | src/gpu/resource_coherence.cpp:126-141 | an acknowledgement is accepted exactly for a current, precise, dirty record at its own generation |
| ResourceCoherence.WriteThenAcknowledge | src/gpu/resource_coherence.cpp:126-204 | after a newer write to a precise record the write's own generation is accepted, and no other |
| ResourceCoherence.MarkExactly | src/gpu/resource_coherence.cpp:143-163 | a pending GPU write is set exactly on a current record |
| ResourceCoherence.Coherence.RegisterResource | src/gpu/resource_coherence.cpp:53-96 | publishes a dirty record under the next identifier, or changes nothing |
| ResourceCoherence.Coherence.UnregisterResource | src/gpu/resource_coherence.cpp:98-102 | removes the record and says whether it existed |
| ResourceCoherence.Coherence.Query | src/gpu/resource_coherence.cpp:104-124 | reports the record and whether its mapping is still current |
| ResourceCoherence.Coherence.AcknowledgeCpuUpload | src/gpu/resource_coherence.cpp:126-141 | clears the mark only for a current, precise, dirty record at exactly its generation |
| ResourceCoherence.Coherence.MarkGpuWrite | src/gpu/resource_coherence.cpp:143-163 | sets or clears the pending GPU write of a current record |
| ResourceCoherence.Coherence.HasGpuWritePendingOverlap | src/gpu/resource_coherence.cpp:165-173 | true exactly for a bad range or an overlapping pending writer |
| ResourceCoherence.Coherence.OnGuestMemoryWrite | src/gpu/resource_coherence.cpp:175-204 | every overlapping record is updated, in whatever order the map is visited |
| GuestThreads.OthersKeepTheirPoint | src/cpu/native_guest_thread_runner.cpp:337-441 | whatever other threads do, a thread that is not selected keeps its saved point |
| GuestThreads.ResumesOwnCall | src/cpu/native_guest_executor.cpp:586-615 | after any other slices a yielded thread continues at its own point with its completed value, and a blocked one repeats its own call |
| GuestThreads.SliceWithMore | src/cpu/native_guest_executor.cpp:686-731 | a slice that ends is the same for every larger bound on its calls |
| GuestThreads.AnswerEnds | src/cpu/native_guest_thread_runner.cpp:391-441 | how a turn ends when a repeated call blocks again, exits the guest thread or fails |
| GuestThreads.PrepareKeeps | src/cpu/native_guest_thread_runner.cpp:457-478 | preparing ready threads leaves registered ones alone, and new ones are unstarted |
| GuestCalls.CallsAreDisciplined | src/cpu/native_hle_trampoline.cpp:178-211 | over every run a call repeats the one before it exactly when that one blocked, so a blocked call is made until it stops blocking and a finished or yielded one never again; a waiting thread waits for its last call |
| GuestCalls.WaitsWhileBlocked | src/cpu/native_guest_executor.cpp:586-611 | while its call blocks, a thread keeps waiting for that call with its registers, whatever else runs |
| GuestCalls.UnblocksAtOwnPoint | src/cpu/native_guest_executor.cpp:586-615 | the first answer that does not block resumes the thread at its own return point, however often the call was retried |
| GuestCalls.SliceLogs | src/cpu/native_hle_trampoline.cpp:165-168 | the calls listed for a slice are exactly the handler calls it makes |
| GuestThreads.TurnKeepsAlive | src/cpu/native_guest_thread_runner.cpp:405-441 | a started thread is left without a continuation exactly where its exit was refused |
| GuestThreads.TurnsKeepAlive | src/cpu/native_guest_thread_runner.cpp:337-441 | while exits are recorded, every started registered thread can be resumed, over whole runs |
| GuestThreads.FrameCanVanish | src/cpu/native_guest_executor.cpp:546-569 | a concrete thread whose second slice is refused |
| GuestLane.Lane.Dispatch | src/cpu/native_hle_trampoline.cpp:178-211 | records a blocked or yielded call, with its return point and registers, in the shared context |
| GuestLane.Lane.RunGuest | src/cpu/native_guest_executor.cpp:686-731 | guest code and its ordinary calls run as one coroutine step, ending, suspending or running on |
| GuestLane.Lane.ExecuteEntry | src/cpu/native_guest_executor.cpp:456-536 | a first slice equals the coroutine's, and the context is reset unless the thread suspended |
| GuestLane.Lane.ResumeContext | src/cpu/native_guest_executor.cpp:538-615 | retries a blocked call or delivers a completed one; a refused frame leaves the context as it was |
| GuestLane.Lane.ResumeThread | src/cpu/native_guest_executor.cpp:617-655 | a continuation is loaded whole, used up, and resumed as its own coroutine |
| GuestLane.Lane.TakeContinuation | src/cpu/native_guest_executor.cpp:657-684 | the suspended call moves into the thread unchanged and the context is blank |
| GuestLane.Lane.RunThread | src/cpu/native_guest_thread_runner.cpp:362-389 | one slice through the shared context equals the thread's own slice |
| GuestLane.Lane.AfterSlice | src/cpu/native_guest_thread_runner.cpp:391-441 | how the slice ended is recorded, and the capture of a suspended call never fails |
| GuestLane.Lane.PrepareReady | src/cpu/native_guest_thread_runner.cpp:456-478 | registers the ready threads that are new, up to the first failed allocation |
| GuestLane.Lane.RegisterThread | src/cpu/native_guest_thread_runner.cpp:97-164 | a new handle is registered unstarted, a known one refused |
| GuestLane.Lane.RunNext | src/cpu/native_guest_thread_runner.cpp:337-441 | each turn, registrations included, has the effect and status of the coroutine semantics, and the lane is free afterwards unless a saved frame was refused |
| GuestLane.Lane.RunMany | src/cpu/native_guest_thread_runner.cpp:337-478 | over whole runs, with threads registered on the way, the shared lane ends where separate coroutines would, and a busy lane stays busy |
| StringRead.ReadNullTerminatedString | src/hle/call_context.cpp:304-356 | for every memory, address and limit, chunked reading returns the bytewise status and text |
| StringRead.ReadSlowly | src/hle/call_context.cpp:338-354 | the per-byte fallback continues the bytewise reader |
| StringRead.FindNul | src/hle/call_context.cpp:324-326 | the first NUL of the chunk, or its length |
| StringRead.AddOffset | src/hle/call_context.cpp:21-28 | an address sum is refused exactly when it leaves 64 bits |
| StringRead.BytewiseMeans | src/hle/call_context.cpp:304-356 | the bytewise result is the text before the first NUL, exactly the limit without one, or a fault at the first unreadable byte |
| StringRead.DescribesUnique | src/hle/call_context.cpp:304-356 | no other result fits that description |

## Left out

- GuestMemory.ReadStored: accesses of zero bytes and the mapping machinery of guest memory are not modelled; memory is a map of accessible bytes.
- ShaderRegistry.Registry.CreateShader: allocation failures inside the registry are not modelled; failing and partial memory writes are.
- GuestLane.Lane.RegisterThread: the checks of a stack's size, access and overlap, and thread-local storage, are one allocation answer.
- GuestLane.Lane.RunGuest: emitted machine code and host fault handling are an abstract step of the guest.
- ResourceCoherence.Coherence.OnGuestMemoryWrite: callbacks are atomic events in any order; the mutex that makes them so is not modelled.
- Standard, PRT, depth and volume swizzles: the detiler accepts render-target images only.
- Mode-specific texture pitches other than the render target's, and multisampled blocks: closed formulas.
- Vulkan submission, presentation and the action bridge: calls into foreign code.
- The snapshot of render state attached to draw actions: field extraction without state.
- The shader recompiler behind a recompile request: not part of this model.
- The event sink, the action trace and the action ring: containers beside the decoder.
- Scheduler, pthread, file, event-queue and direct-memory services: their answers are inputs here.
- Video output, export and import registries, the loader and the process launcher: smaller invariants of their own.
