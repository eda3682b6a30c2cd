# Verified model of OpenPRoT's core protocols

A Dafny 4.11 model of the stateful core of OpenPRoT: the I2C and MCTP services with their clients,
the blocking flash adapter, image staging and trial boot, asynchronous IPC, the USART server,
register copies, and two host tools (the I2C monitor and the SGPIO manifest tool).

`dafny verify dfyconfig.toml` checks the whole project. No part of it is executed.

## How it is built

- Objects that the source updates in place are classes, loops are methods with invariants. Each such
  method is proved against a pure function; the lemmas are about those functions.
- What the source calls but does not define is a parameter and can behave in any way: the I2C
  controller (`I2cBus.Behaviour`), the MCTP router (`MctpServer.Router`), the flash part
  (`Flash.Driver`), UART backend results, payload reads that fail, flash that stores other bytes than
  were written, kernel answers and kernel-side cancellation, clocks.
- Reactive parts (slave latch, receive table, staging, trial boot, IPC wrappers, USART loop,
  reassembly) are state machines, and their theorems quantify over every finite history of events.

| module | models |
|---|---|
| `Bytes`, `Bits` | integers of fixed width, little-endian codes, bit masks on naturals |
| `I2cProtocol`, `I2cBus`, `I2cServer`, `I2cClient` | the I2C transaction RPC, both ends |
| `I2cLatch` | the slave notification latch and its event loop over many buses |
| `MctpWire`, `MctpServer`, `MctpRuns`, `MctpRpc`, `MctpCalls`, `MctpLoop` | wire format, receive table, whole runs, refinement, what reaches the router, the server object |
| `Flash` | unaligned reads and windowed programming over an asynchronous driver |
| `FlashStaging`, `PldmStaging`, `TrialBoot` | the staging devices and the slot record of the orchestrator seams |
| `AsyncIpc`, `Usart`, `RegCopy` | transaction wrappers, the USART server with its client, register copies |
| `Pec`, `Assembler` | the monitor's packet error code and message reassembly |
| `ManifestMerge`, `ManifestCheck` | manifest merging and validation |

## Where the code and its documentation differ

The model follows the code. Each difference below names the lemma or contract that shows it, and the
exact condition under which the documented behaviour holds.

- Unaligned flash reads fetch 16 bytes from the rounded-down address, so a read that lies inside the
  flash can fail near its end: `Flash.PrefixReadOverruns`; `Flash.Read` succeeds exactly when
  `Readable` and the driver serves its reads. The driver documentation asks for lengths, and for
  program addresses, that are multiples of an alignment; the adapter passes the caller's values on,
  so the modelled driver accepts any.
- The staging contract says an error returns the device to idle. A failed payload read does not. On
  the flash device the transfer resumes, and another payload handed over then is mixed with the old
  one (`FlashStaging.FaultThenNewPayloadMixes`): it is staged correctly if and only if both agree on
  the bytes verified so far (`FlashStaging.SwitchedPayloadReadyIff`). One as long as those bytes is
  reported ready without being written (`FlashStaging.FaultThenEqualLength`); a shorter one, and no
  other, makes the length computation underflow (`FlashStaging.ShorterPayloadPanics`,
  `FlashStaging.FaultThenShorterHalts`). On the PLDM device a payload of another length finds zeros
  in place of what was received (`PldmStaging.FaultThenNewPayload`), and a shorter one panics
  (`PldmStaging.FaultThenShorterPanics`); the exact conditions are
  `PldmStaging.SwitchedPayloadReadyIff` and `PldmStaging.ShorterPayloadPanics`.
- `written` is documented as below `total`. The flash device keeps that unless everything was
  verified before the payload was handed over (`FlashStaging.WrittenIsMonotone`); the PLDM device
  reports `written == total` exactly on the step that requests the last chunk
  (`PldmStaging.WrittenIsTotalIff`), so on the first step of every payload of one chunk
  (`PldmStaging.WholePayloadInOneChunk`).
- All receives resolved in one pass share one buffer. Each client gets its own message if and only if
  the messages agree as far as both go (`MctpRpc.DeliveryIsOwnIffCompatible`,
  `MctpRpc.DeferredReceiveIsOwnIff`, `MctpRpc.SharedBufferMixesMessages`).
- The MCTP client reports other codes than the server for payloads that do not fit a message, so the
  two agree if and only if the call fits the wire (`MctpRpc.RpcRefinesServer`).
- A deadline is a wrapping 64-bit sum in which 0 means "none": `MctpRuns.ZeroDeadlineMeaning`.
- The monitor takes byte 4 of every packet as a message type, so the body of a message survives if and
  only if all its data is in one packet (`Assembler.BodyRecoveredIffOnePacket`,
  `Assembler.TwoPacketsLoseAByte`).
- A kernel that cancels a transaction by itself lets one wrapper take another's completion
  (`AsyncIpc.CompletionCanBeStolen`). A completion is a wrapper's own if and only if no other wrapper
  has started a transaction since (`AsyncIpc.CompletionIsOwnIff`).
- A second blocked USART read is documented as `Busy`; the code answers `Timeout`, exactly when a read
  is parked (`Usart.SecondBlockedReadTimesOut`).
- `truncated` of a slave receive is never true, since the server already cut the data; and the reply
  fits the client's response buffer unless the latch is full and the caller's buffer is larger than
  it (`I2cLatch.ReceiveRoundTrip`, `I2cLatch.FullLatchOverflowsReply`).
- Deep merge is not associative (`ManifestMerge.MergeIsNotAssociative`); it regroups if and only if
  `Regroups` (`ManifestMerge.MergeAssociatesIff`).

## Model

| member | source | states |
|---|---|---|
| `I2cClient.RpcRefinesBus` | services/i2c/client/src/lib.rs:312-403 | For every bus and every transaction that fits: exactly one bus call, with the caller's address, order, write bytes and read lengths; on success the caller's reads are the bus's, on failure they are untouched and the error kind is the bus's |
| `I2cClient.RpcIsDirect` | services/i2c/client/src/lib.rs:410-425 | Over a bus that ignores old read-buffer contents, a call through the client and a call on the bus itself give the same bus state, the same result and error kind, and on success the same reads; on failure the client leaves the reads as they were |
| `I2cClient.RpcSucceedsIff` | services/i2c/client/src/lib.rs:312-403 | Every transaction, on every bus: it succeeds if and only if the bus was called once and accepted it; one over a limit makes no call and changes nothing, with one error exactly for more than 16 operations, and another exactly for at most 16 with more than 256 bytes in one direction |
| `I2cClient.Transact` | services/i2c/client/src/lib.rs:312-403 | The in-place client bound to the in-place server computes the specified round trip: bus state, bus log, caller's operations, result, including both size errors |
| `I2cClient.RequestRoundTrips` | services/i2c/client/src/lib.rs:342-370 | Every request the client builds is well formed for the server and parses to the same address, kinds, order, lengths and write bytes |
| `I2cClient.BuildRequest` | services/i2c/client/src/lib.rs:342-370 | The buffer filled step by step holds exactly the encoded transaction |
| `I2cClient.Scatter` | services/i2c/client/src/lib.rs:392-400 | Reply bytes land in the read buffers in operation order, writes stay |
| `I2cClient.ScatterUndoesGather` | services/i2c/client/src/lib.rs:392-400 | Scattering the concatenated reads of any filled operation list gives that list back |
| `I2cClient.InterpretUndoesEncode` | services/i2c/client/src/lib.rs:374-390 | The client reads back from a reply the payload or the error status the server put in |
| `I2cServer.Dispatch` | services/i2c/server/src/lib.rs:82-176 | For any request bytes and any response size: at most one bus call, and the reply, state and log of the specified service; malformed requests touch no bus |
| `I2cServer.StatusTellsFault` | services/i2c/server/src/lib.rs:82-142 | Over every bus and any request bytes: which malformed request gets which of three statuses, if and only if; no bus fault is reported with these, so they tell exactly that the bus was not called; a call goes to the address in byte 2 with as many operations as the header says |
| `I2cServer.ScanDescs` | services/i2c/server/src/lib.rs:109-135 | The first pass accepts exactly the requests whose descriptors all have a known kind, and totals both directions |
| `I2cServer.Carve` | services/i2c/server/src/lib.rs:144-163 | The second pass yields the specified slice of every operation |
| `I2cServer.SlicesCarved` | services/i2c/server/src/lib.rs:144-163 | All carved slices are in bounds, and those of one direction are disjoint and in order |
| `I2cServer.SlicesCover` | services/i2c/server/src/lib.rs:144-163 | Slices leave no gap: every byte of the reply area and of the inline payload belongs to one |
| `I2cServer.SlicesAreRequested` | services/i2c/server/src/lib.rs:144-168 | Over zeroed scratch the slices denote exactly the requested operations |
| `I2cServer.ScratchIsReads` | services/i2c/server/src/lib.rs:170-175 | After the bus call the scratch prefix is the concatenation of the reads, in order |
| `I2cServer.Replay` | services/i2c/server/src/lib.rs:144-168 | Running the carved slices is one bus transaction on the requested operations, and the scratch holds its reads |
| `I2cServer.Encode` | services/i2c/server/src/lib.rs:62-74 | The reply buffer starts with the encoded answer and is otherwise unchanged |
| `I2cBus.BusDevice.Transaction` | services/i2c/server/src/loopback.rs:32-38 | A bus sees the resolved operations once and its bytes land in every read slice, for any behaviour |
| `I2cLatch.LatchRefinesHistory` | services/i2c/server-runtime/src/lib.rs:117-184 | Over every history the latch holds exactly the last write drained while armed that nothing has consumed, dropped or replaced |
| `I2cLatch.RunArmed` | services/i2c/server-runtime/src/lib.rs:226-235 | Armed exactly when the last arm or disarm was an arm; latched data implies armed |
| `I2cLatch.KindIsLastMark` | services/i2c/server-runtime/src/lib.rs:125-163 | Over every history the latched event kind is that of the last finished write, read request or stop that came while armed since the last disarm, and "data received" without one |
| `I2cLatch.WakesIff` | services/i2c/server-runtime/src/lib.rs:172-182 | An interrupt wakes the client if and only if, by history, the bus is armed and a write is waiting or the last such event was a stop |
| `I2cLatch.ReceiveDeliversLatest` | services/i2c/server-runtime/src/lib.rs:236-257 | A receive answers with that one write, cut to what was asked and what fits, and the kind of the last event, and says "no data" exactly when there is no such write |
| `I2cLatch.DeliveriesHaveOwnWrites` | services/i2c/server-runtime/src/lib.rs:236-257 | Two deliveries come from two writes, one on either side of the first: nothing is delivered twice |
| `I2cLatch.BusesDoNotInterfere` | services/i2c/server-runtime/src/lib.rs:117-196 | In a loop over many buses, each latch is the run of its own interrupts and requests alone |
| `I2cLatch.BusSlot.OnIrq` | services/i2c/server-runtime/src/lib.rs:117-184 | The in-place interrupt path does the specified step, and wakes the client exactly when there is something to fetch |
| `I2cLatch.BusSlot.OnRequest` | services/i2c/server-runtime/src/lib.rs:226-257 | The in-place request path does the specified step and encodes its reply |
| `I2cLatch.CommandsAreAcknowledged` | services/i2c/server-runtime/src/lib.rs:226-235 | Arming and disarming are answered with success and no payload, whatever is latched |
| `I2cLatch.ReceiveRoundTrip` | services/i2c/client/src/lib.rs:219-270 | For every caller's buffer the client decodes the latched bytes as far as the buffer allows, the event kind, the rest of the buffer unchanged, and `truncated` false; when the reply fits the response buffer, exactly |
| `I2cLatch.FullLatchOverflowsReply` | services/i2c/client/src/lib.rs:219-222 | A full latch read into a buffer of 257 bytes gives a reply one byte too long |
| `MctpWire.CallRoundTrips` | services/mctp/api/src/wire.rs:288-435 | Every operation with every combination of optional fields parses back from its encoding |
| `MctpWire.RequestHeaderRoundTrips` | services/mctp/api/src/wire.rs:124-166 | Request headers survive the wire whatever follows them |
| `MctpWire.ResponseHeaderRoundTrips` | services/mctp/api/src/wire.rs:231-266 | Response headers survive the wire whatever follows them |
| `MctpWire.FlagsSeparate` | services/mctp/api/src/wire.rs:92-101 | Each flag bit reads back on its own, for all sixteen combinations |
| `MctpRpc.RpcRefinesServer` | services/mctp/client-ipc/src/lib.rs:69-217 | For every router, server state and call, the client over the wire and the direct call agree on result and state if and only if the call fits the wire |
| `MctpRpc.AnswerRoundTrips` | services/mctp/api/src/wire.rs:441-541 | Every answer a call can get decodes to itself |
| `MctpRpc.ReceiveFillsBuffer` | services/mctp/client-ipc/src/lib.rs:153-180 | The caller gets the message's metadata and true size, as many bytes as the buffer takes, and the rest of the buffer as it was; the message was cut exactly when the size exceeds the buffer |
| `MctpRpc.DeliveryIsOwnIffCompatible` | services/mctp/server/src/dispatch.rs:147-173 | All clients of a pass get their own message if and only if the messages agree as far as both go |
| `MctpRpc.DeferredReceiveIsOwnIff` | services/mctp/client-ipc/src/lib.rs:153-180 | What the clients of a pass decode from their replies is each one's own message if and only if the messages agree as far as both go; metadata and length are always its own, and an expiry is decoded as a timeout |
| `MctpRpc.SingleMessageIsOwn` | services/mctp/server/src/dispatch.rs:147-173 | With at most one message in a pass every client gets its own answer |
| `MctpRpc.SharedBufferMixesMessages` | services/mctp/server/src/server.rs:196-239 | A router and a table of two receives for which one pass of the server gives the first client the second's byte |
| `MctpServer.RemoveTakesOne` | services/mctp/server/src/server.rs:242-247 | Removing a handle keeps handles unique, keeps every other entry and drops exactly that one |
| `MctpServer.PollResolves` | services/mctp/server/src/server.rs:206-231 | Each ready handle is one outstanding entry, resolved at most once; an expiry only at or after a non-zero deadline |
| `MctpServer.UpdateSplitsTable` | services/mctp/server/src/server.rs:196-239 | A pass splits the table into what is reported and what stays, with nothing lost, and the ready list never overflows |
| `MctpServer.NothingOverdue` | services/mctp/server/src/server.rs:206-231 | No entry whose deadline has come outlives a pass |
| `MctpCalls.CallReachesRouter` | services/mctp/server/src/server.rs:74-188 | Every operation on every router: exactly one router call, with the caller's arguments (an owned tag and the handle as cookie with a handle, an unowned tag and cookie 255 without), and the answer is the router's own value or the code of its error; an identifier lookup and an oversized payload ask nothing |
| `MctpCalls.MalformedAsksNothing` | services/mctp/server/src/dispatch.rs:45-52 | Requests that are too short or have an unknown code, and no others, change nothing and are answered as a bad argument |
| `MctpCalls.PassReachesRouter` | services/mctp/server/src/server.rs:196-239 | A pass updates the router once, asks it once for every outstanding receive, in order, and reports exactly what the router had and what has expired |
| `MctpCalls.RunReachesRouter` | services/mctp/server/src/server.rs:74-262 | Over every run of requests, passes and packets, the router gets the calls of each event in order, none lost, repeated or added |
| `MctpRuns.World.RegistrationsAreConserved` | services/mctp/server/src/server.rs:129-150 | Over every run of requests, ticks and packets: registrations of a handle are its resolutions plus the one outstanding, handles stay unique and the table within capacity |
| `MctpRuns.World.EntriesKeepFirstDeadline` | services/mctp/server/src/server.rs:129-150 | Every entry was opened by one event of the run, unresolved since, and still has that event's deadline |
| `MctpRuns.World.ExpiriesAreDue` | services/mctp/server/src/server.rs:196-239 | Every expiry answers a registration with a non-zero timeout and never comes early, unless the 64-bit sum wraps |
| `MctpRuns.ZeroDeadlineMeaning` | services/mctp/server/src/server.rs:129-150 | Deadline 0 means "none" exactly when the timeout is 0, or the sum is 2^64 |
| `MctpLoop.Server.TryRecv` | services/mctp/server/src/server.rs:106-122 | A waiting message's payload lands in the buffer if it fits and leaves the buffer alone otherwise; its metadata is returned, the table is untouched |
| `MctpLoop.Server.RegisterRecv` | services/mctp/server/src/server.rs:129-150 | A new handle is added if there is room, a known one keeps its deadline, a full table refuses |
| `MctpLoop.Server.Update` | services/mctp/server/src/server.rs:196-239 | The in-place pass computes the specified table and ready list, and the shared buffer holds the payloads laid over each other in order |
| `MctpLoop.Execute` | services/mctp/server/src/dispatch.rs:54-135 | Carrying out a parsed call on the object is the specified operation |
| `MctpLoop.Dispatch` | services/mctp/server/src/dispatch.rs:38-138 | For any request bytes: the specified state and outcome, and an immediate answer is encoded in the response |
| `MctpLoop.DrivePending` | services/mctp/server/src/dispatch.rs:147-173 | Exactly one reply per resolved handle, in order, built from the shared buffer as it is after the whole pass |
| `Flash.Read` | hal/blocking/flash/flash.rs:139-159 | Succeeds exactly when `Readable` and the driver serves the reads it takes, whose number is given; then every byte of the buffer is the flash byte at its address, for every alignment |
| `Flash.PrefixReadOverruns` | hal/blocking/flash/flash.rs:139-159 | A read inside the flash that fails because of the 16-byte prefix |
| `Flash.ReadAligned` | hal/blocking/flash/flash.rs:153-158 | Chunked reading fills exactly the rest of the buffer, every chunk aligned and within the driver's maximum |
| `Flash.Masks` | hal/blocking/flash/flash.rs:139-159 | The two bit masks are the offset in the alignment unit and the unit's address |
| `Flash.Program` | hal/blocking/flash/flash.rs:174-196 | Succeeds exactly when the range is in bounds and every piece, one per window touched, starts and completes; then every byte is old AND new. Otherwise it stopped at a piece that was refused, out of bounds or failed: every earlier piece is applied, no later one started, and only bytes of a failing piece are in doubt |
| `Flash.StartedCounts` | hal/blocking/flash/flash.rs:174-196 | Before the end of the data fewer pieces are started than windows are touched, at the end exactly as many |
| `Flash.StartedIsLegal` | hal/blocking/flash/flash.rs:174-196 | The pieces started tile the range without gap or overlap, none crosses a window, one per window touched |
| `Flash.LegalNeedsWindows` | hal/blocking/flash/flash.rs:174-196 | No legal splitting uses fewer pieces |
| `Flash.NextLen` | hal/blocking/flash/flash.rs:181-188 | The masked length is the rest of the window or of the data, never zero, never across a window |
| `Flash.ProgramChunk` | hal/blocking/flash/flash.rs:189-193 | One piece is refused exactly when it is out of bounds or the driver refuses it, fails exactly when the driver fails to complete it, and otherwise is applied; damage only inside it |
| `Flash.ErasedProgramReadsBack` | hal/blocking/flash/flash.rs:268-289 | Programming an erased range stores the payload itself |
| `Flash.ProgrammingClearsBits` | hal/blocking/flash/flash.rs:268-289 | Bit by bit: programming never sets a bit, clears exactly those that are zero in the data, and touches nothing outside its range |
| `Flash.Driver.CompleteProgram` | hal/blocking/flash/flash.rs:268-297 | Completion clears bits of the pending piece, or leaves arbitrary bytes in it, and touches nothing else |
| `Bits.AndHighMask` | hal/blocking/flash/flash.rs:139-159 | And-ing with the inverted low mask rounds down to a multiple of the power of two |
| `Bits.AndLowMask` | hal/blocking/flash/driver.rs:131-159 | And-ing with the low mask is the remainder by the power of two |
| `FlashStaging.StagingIsSafe` | services/orchestrator/capabilities/src/updatable.rs:681-759 | Over every run that obeys the seam's rule for callers, with payload faults and flash that stores wrong bytes, and no payload shorter than what is verified: no poll panics, no byte is programmed that was not erased in the same staging and left alone since, and ready means the slot holds what was effectively handed over |
| `FlashStaging.DisciplinedIsTrue` | services/orchestrator/capabilities/src/updatable.rs:681-759 | If payloads change only on an idle or ready device, ready means the slot starts with the payload polled with |
| `FlashStaging.StagingCompletes` | services/orchestrator/capabilities/src/updatable.rs:339-345 | Every payload that fits is staged: when nothing goes wrong, some poll within a bound linear in the bytes left reports ready with the payload in the slot |
| `FlashStaging.ErrorsHaveCauses` | services/orchestrator/capabilities/src/updatable.rs:682-743 | Each error has its cause, if and only if: empty, oversized, flash that does not hold what was written, or a failed read in a poll that takes a page from the payload |
| `FlashStaging.PollTouchesOnly` | services/orchestrator/capabilities/src/updatable.rs:710-743 | What a poll does to every byte of the slot: an erase fills one sector with 0xFF, a program stores the next page of the payload, every other byte and every other poll leaves the slot alone |
| `FlashStaging.WrittenIsMonotone` | services/orchestrator/capabilities/src/updatable.rs:118-134 | A poll that keeps transferring reports the verified count and is strictly closer to the end; the count equals the total exactly if it did when the payload was handed over |
| `FlashStaging.SwitchedPayloadReadyIff` | services/orchestrator/capabilities/src/updatable.rs:682-743 | Another payload handed over mid-transfer leaves old prefix plus new rest, so ready is true to it if and only if both agree on the verified bytes |
| `FlashStaging.ShorterPayloadPanics` | services/orchestrator/capabilities/src/updatable.rs:715-726 | A payload shorter than the verified bytes, and no other, makes the poll panic, at once or after one erase |
| `FlashStaging.FaultThenEqualLength` | services/orchestrator/capabilities/src/updatable.rs:722-729 | A run in which a payload, reported as `written == total` on the way, is reported ready without one byte of it written |
| `FlashStaging.FaultThenShorterHalts` | services/orchestrator/capabilities/src/updatable.rs:722-729 | A run that ends in the underflow |
| `FlashStaging.FaultThenNewPayloadMixes` | services/orchestrator/capabilities/src/updatable.rs:722-729 | A run of six polls that reports ready over a mix of two payloads |
| `FlashStaging.PollIsGood` | services/orchestrator/capabilities/src/updatable.rs:682-743 | One poll from any invariant state keeps the invariant, is in bounds, programs only blank bytes and makes progress |
| `FlashStaging.NextSector` | services/orchestrator/capabilities/src/updatable.rs:710-721 | A page that leaves its sector ends exactly where the next one starts, so every sector is entered at its start |
| `FlashStaging.FlashDevice.PollStage` | services/orchestrator/capabilities/src/updatable.rs:682-743 | The in-place device does the specified step |
| `FlashStaging.FlashDevice.StageAll` | services/orchestrator/capabilities/src/updatable.rs:339-345 | The polling loop ends: with the slot holding the payload, or in an error whose cause occurred; with a payload that fits, reads that succeed and flash that stores what is written, always the former. On every exit the device can be staged again with the payload, after a mismatch with any payload |
| `FlashStaging.StageAgain` | services/orchestrator/capabilities/src/updatable.rs:818-831 | On a new device, whatever goes wrong in a first attempt, a second one in which nothing does ends ready with the payload in the slot; a first attempt fails only if something went wrong |
| `PldmStaging.PldmDevice.PollStage` | services/orchestrator/capabilities/src/updatable.rs:532-576 | The in-place device does the specified step for every payload that does not underflow |
| `PldmStaging.PollIsGood` | services/orchestrator/capabilities/src/updatable.rs:532-576 | One step keeps the received prefix true to the payload through the retransmit, advances or uses up the retransmit, and reports ready only with the whole payload staged |
| `PldmStaging.StagingIsSafe` | services/orchestrator/capabilities/src/updatable.rs:532-583 | Over every run that obeys the seam's rule for callers, with failed reads and any number of payload changes, and no payload shorter than what was received: no poll panics, and ready means the device holds what was effectively handed over |
| `PldmStaging.DisciplinedIsTrue` | services/orchestrator/capabilities/src/updatable.rs:532-583 | If payloads change only on an idle or ready device, ready means the payload polled with is staged |
| `PldmStaging.WrittenIsTotalIff` | services/orchestrator/capabilities/src/updatable.rs:549-576 | `written` equals `total` exactly on the step that requests the last chunk |
| `PldmStaging.WholePayloadInOneChunk` | services/orchestrator/capabilities/src/updatable.rs:549-576 | The first step of every payload of at most one chunk reports `written` equal to `total` |
| `PldmStaging.TransferSchedule` | services/orchestrator/capabilities/src/updatable.rs:532-576 | The whole undisturbed transfer, for every chunk size and payload: what each poll reports, one chunk more each time except the one retransmit after the second, and ready on the poll after the last |
| `PldmStaging.FaultIsReported` | services/orchestrator/capabilities/src/updatable.rs:562-564 | A failed read is reported by exactly the polls that request a chunk, and leaves what was received |
| `PldmStaging.ReadyStartsOver` | services/orchestrator/capabilities/src/updatable.rs:541-543 | A poll of a ready device is that of an idle one |
| `PldmStaging.SwitchedPayloadReadyIff` | services/orchestrator/capabilities/src/updatable.rs:541-576 | Another payload handed over mid-transfer: the device that reports ready holds the bytes it kept, old ones or zeros, and the rest of the new payload, so it holds the new payload if and only if that begins with the kept bytes |
| `PldmStaging.ShorterPayloadPanics` | services/orchestrator/capabilities/src/updatable.rs:554-561 | Polling with a payload ever panics if and only if it is shorter than what was received by a device that is not ready; then it panics within two polls whichever reads fail |
| `PldmStaging.FaultThenShorterPanics` | services/orchestrator/capabilities/src/updatable.rs:554-561 | A run from the idle device, through a failed read, that ends in the underflow |
| `PldmStaging.FaultThenNewPayload` | services/orchestrator/capabilities/src/updatable.rs:544-564 | Runs in which a payload of the same and of another length are reported ready over an old byte and over a zero |
| `PldmStaging.PldmDevice.StageAll` | services/orchestrator/capabilities/src/updatable.rs:339-345 | The polling loop ends: with exactly the payload staged, or in an error whose cause occurred; without failed reads always the former. On every exit the device can be staged again with the payload |
| `TrialBoot.PendingIsOpenActivation` | services/orchestrator/capabilities/src/trial_boot.rs:154-186 | Over every history a trial is pending exactly when the latest activation is unresolved, and armed exactly until a boot |
| `TrialBoot.BootsTrialOnce` | services/orchestrator/capabilities/src/trial_boot.rs:170-186 | A boot runs the trial image exactly when it directly follows its activation; every other boot runs the confirmed slot |
| `TrialBoot.OnlyConfirmCommits` | services/orchestrator/capabilities/src/trial_boot.rs:220-247 | Only a confirm changes the confirmed slot, and only to the slot of the open activation |
| `TrialBoot.ResolutionsAreFinal` | services/orchestrator/capabilities/src/trial_boot.rs:220-247 | After a confirm or revert no trial is pending, the next boot runs the confirmed slot, and a further resolution changes nothing |
| `TrialBoot.SlotRecord.BootDevice` | services/orchestrator/capabilities/src/trial_boot.rs:177-186 | The in-place boot does the specified step and runs the specified slot |
| `TrialBoot.SlotRecord.IsPending` | services/orchestrator/capabilities/src/trial_boot.rs:223-228 | Tells whether a trial is open, or fails |
| `TrialBoot.SlotRecord.ConfirmTrial` | services/orchestrator/capabilities/src/trial_boot.rs:230-239 | A faulty record fails and changes nothing, otherwise the trial is committed |
| `AsyncIpc.BuffersAreAccountedFor` | util/ipc/async_transaction.rs:69-149 | Over every run of any number of wrappers, every buffer pair is in exactly one place, and the kernel never points at a pair the program holds |
| `AsyncIpc.CompletionIsOwnIff` | util/ipc/async_transaction.rs:112-130 | Over every run, kernel-side cancels included: a completion is the wrapper's own if and only if the latest accepted start was its own |
| `AsyncIpc.SlotIsTheOneInFlight` | util/ipc/async_transaction.rs:112-130 | In runs without a kernel-side cancel at most one wrapper is pending, and it is the one in the kernel's slot |
| `AsyncIpc.CompletionCanBeStolen` | util/ipc/async_transaction.rs:112-130 | With a kernel-side cancel, a run in which one wrapper completes with another's answer |
| `AsyncIpc.AnswersHaveCauses` | util/ipc/async_transaction.rs:69-141 | Over every run, which answer a start, a receive and a cancel get: refused exactly while the wrapper's own transaction is pending, unavailable exactly while another is in the kernel, or the kernel's own reason |
| `AsyncIpc.OwnBuffersComeBack` | util/ipc/async_transaction.rs:112-141 | Over every run, a completion or cancel gives back the buffers of the wrapper's own start |
| `AsyncIpc.StateFollowsHistory` | util/ipc/async_transaction.rs:69-149 | A wrapper holds buffers exactly while its transaction is pending by history, and the kernel's slot is taken exactly while one is in the kernel |
| `AsyncIpc.AsyncTransaction.Start` | util/ipc/async_transaction.rs:69-110 | A refused start gives the buffers back with the reason and changes nothing |
| `AsyncIpc.AsyncTransaction.TryRecv` | util/ipc/async_transaction.rs:112-130 | Buffers come back exactly with a completion; a kernel error is passed on and leaves the transaction pending |
| `AsyncIpc.AsyncTransaction.Cancel` | util/ipc/async_transaction.rs:131-141 | A cancel returns the buffers and leaves no kernel transaction |
| `Usart.RequestsAreConserved` | drivers/usart/server/src/runtime.rs:81-148 | Over every run, each request read is answered exactly once or is the one parked, on its own channel, with at most the bytes it asked for |
| `Usart.RequestsCount` | drivers/usart/server/src/runtime.rs:81-148 | Requests read are responses sent plus the one that may be parked |
| `Usart.SecondBlockedReadTimesOut` | drivers/usart/server/src/lib.rs:24-135 | A read that finds no data is answered with a timeout exactly when another is parked, and is parked unanswered otherwise |
| `Usart.DispatchRequest` | drivers/usart/server/src/lib.rs:24-135 | The in-place dispatcher does the specified turn for any request bytes and backend answer: slot, backend calls, response |
| `Usart.OnInterrupt` | drivers/usart/server/src/runtime.rs:81-148 | The in-place interrupt path does the specified turn; parking again never fails |
| `Usart.AnsweredInTurn` | drivers/usart/server/src/lib.rs:24-135 | Over every run, by history: a request that is not parked is answered with the backend's bytes as far as there is room, their number and status 0, or the status of its error; a malformed one with an invalid operation; a read that may not wait with a timeout |
| `Usart.AnsweredByInterrupt` | drivers/usart/server/src/runtime.rs:81-127 | Over every run, a parked read is answered with the data of the first interrupt that has some, and not before |
| `Usart.SlotIsTheOneWaiting` | drivers/usart/server/src/runtime.rs:33-48 | The slot holds exactly the read that, by history, was parked and has had no data since |
| `Usart.RequestCalls` | drivers/usart/server/src/lib.rs:50-135 | The backend calls of a request: its own operation with its own arguments, a read with the room there is, and arming the interrupt exactly when it is parked |
| `Usart.InterruptCalls` | drivers/usart/server/src/runtime.rs:88-124 | The backend calls of an interrupt while a read waits: disarm, read again, arm again if there is still no data |
| `Usart.IdleInterruptCalls` | drivers/usart/server/src/runtime.rs:88-124 | An interrupt while no read waits changes nothing |
| `Usart.ParkedReadIsArmed` | drivers/usart/server/src/runtime.rs:81-148 | No lost wake-up: over every run, while a read is parked the receive interrupt is on, exactly unless a client has turned it off since and nothing has turned it on again |
| `Usart.RequestRoundTrips` | drivers/usart/client/src/lib.rs:35-155 | The server reads from every request a client builds the operation and arguments the client was given |
| `Usart.ClientReadGetsData` | drivers/usart/client/src/lib.rs:109-190 | End to end: a client's read, answered at once or after having waited, brings the backend's bytes into the buffer and leaves the rest of it alone |
| `Usart.PendingRead.Park` | drivers/usart/server/src/runtime.rs:33-42 | Parks exactly when the slot is free and never overwrites |
| `RegCopy.FifoRoundTrip` | util/regcpy/regcpy.rs:17-33 | Every byte string of any length through a FIFO register and back is unchanged and the FIFO is empty again |
| `RegCopy.ArrayRoundTrip` | util/regcpy/regcpy.rs:86-112 | Through a register array and back: what fits is unchanged, the rest of the buffer is untouched |
| `RegCopy.CopyToReg` | util/regcpy/regcpy.rs:17-33 | Pushes exactly the little-endian words, the last one padded with zeros |
| `RegCopy.CopyFromReg` | util/regcpy/regcpy.rs:178-189 | Fills the buffer with the next words the register yields, queued or idle, and reads exactly as many as it needs |
| `RegCopy.CopyToRegArray` | util/regcpy/regcpy.rs:86-112 | Registers past the data keep their values, data past the registers is dropped |
| `RegCopy.CopyFromRegArray` | util/regcpy/regcpy.rs:156-176 | Fills the buffer as far as the registers go and leaves the rest |
| `RegCopy.LastWordIsPadded` | util/regcpy/regcpy.rs:192-204 | The trailing bytes give a word exactly when there are any, and it is the padded last word |
| `RegCopy.WordDigits` | util/regcpy/regcpy.rs:17-33 | As numbers: the digits of a word, least significant first, are the four bytes it stands for, zeros past the end |
| `Bytes.LeDigits` | drivers/usart/api/src/protocol.rs:83-91 | Byte k of an encoded integer is its digit of weight 256^k |
| `Pec.CalculatePec` | tools/i2c/i2c_monitor.py:1182-1201 | The nested loop computes the code of the message |
| `Pec.PecIsRemainderOfDivision` | tools/i2c/i2c_monitor.py:1182-1201 | A byte is the code of a message if and only if, for some quotient, quotient times x^8 + x^2 + x + 1 plus that byte is the message polynomial times x^8, over GF(2) |
| `Pec.PecIsRemainder` | tools/i2c/i2c_monitor.py:1182-1201 | The byte-wise loop equals feeding the message bit by bit and then eight zero bits |
| `Pec.ResidueIsZero` | tools/i2c/i2c_monitor.py:1182-1201 | A message and a trailer leave residue zero if and only if the trailer is the code |
| `Pec.PecLinear` | tools/i2c/i2c_monitor.py:1182-1201 | The code of an exclusive-or is the exclusive-or of the codes |
| `Pec.OneByteErrorDetected` | tools/i2c/i2c_monitor.py:1182-1201 | Messages that differ in one byte never share a code |
| `Pec.PecHasMessageParity` | tools/i2c/i2c_monitor.py:1182-1201 | The code carries the message's parity, so any odd number of flipped bits changes it |
| `Assembler.OutputIsExact` | tools/i2c/i2c_monitor.py:1280-1352 | In any interleaving, a message comes out of the shared dictionary with a fragment if and only if its key's fragments end in a start, consecutive sequence numbers and an end; it has that key, the type of the first of them, their payloads in order and their number |
| `Assembler.KeysDoNotInterfere` | tools/i2c/i2c_monitor.py:1280-1327 | After any interleaving the shared dictionary holds for a key exactly the session its own fragments alone would leave |
| `Assembler.SessionIsOpenRun` | tools/i2c/i2c_monitor.py:1280-1327 | A session is exactly the open consecutive run of its fragments |
| `Assembler.MctpAssembler.AddFragment` | tools/i2c/i2c_monitor.py:1280-1327 | The in-place dictionary and the returned message are those of the specified step |
| `Assembler.AssembleSession` | tools/i2c/i2c_monitor.py:1329-1352 | The loop concatenates the payloads in order |
| `Assembler.MessageComesOutStripped` | tools/i2c/i2c_monitor.py:1124-1179 | In any interleaving with other traffic, a message sent in packets comes out with the last one, each chunk without its first byte, with the endpoints, tag and type bits of the first packet's bytes |
| `Assembler.PacketRoundTrips` | tools/i2c/i2c_monitor.py:1124-1179 | Every packet laid out as MCTP prescribes parses to its fields, and its key does not depend on version, flags or tag owner |
| `Assembler.BodyRecoveredIffOnePacket` | tools/i2c/i2c_monitor.py:1124-1179 | In any interleaving, the message that comes out is the body sent if and only if all its data is in one packet |
| `Assembler.TwoPacketsLoseAByte` | tools/i2c/i2c_monitor.py:1124-1179 | Two packets of two bytes each, whose message comes out one byte short |
| `ManifestMerge.DeepMerge` | tools/sgpiom/sgpio_json_tool.py:47-56 | The loop over keys computes the recursive merge |
| `ManifestMerge.MergeSelf` | tools/sgpiom/sgpio_json_tool.py:47-56 | Merging a value with itself changes nothing |
| `ManifestMerge.MergeAbsorbs` | tools/sgpiom/sgpio_json_tool.py:47-56 | The overlay wins completely if and only if it has every key of the base, at every depth |
| `ManifestMerge.MergeAtPath` | tools/sgpiom/sgpio_json_tool.py:47-56 | At every path a plain value is found in the merge if and only if the overlay has it there, or has no say there and the base has it |
| `ManifestMerge.MergeAssociatesIff` | tools/sgpiom/sgpio_json_tool.py:47-56 | When a chain of three merges can be regrouped, exactly |
| `ManifestMerge.MergeIsNotAssociative` | tools/sgpiom/sgpio_json_tool.py:47-56 | Three values whose two groupings differ |
| `ManifestMerge.MergeNamedList` | tools/sgpiom/sgpio_json_tool.py:59-88 | The two passes over an index of names compute the specified list, or fail exactly when an entry is not an object |
| `ManifestMerge.NamedListMerge` | tools/sgpiom/sgpio_json_tool.py:59-88 | Names of the result in order and none twice; each named entry is the left fold of that name's kept base entry and its override entries; nameless entries are those of the override, in order |
| `ManifestMerge.KeptIsFirst` | tools/sgpiom/sgpio_json_tool.py:66-70 | The base entry kept for a name is its first |
| `ManifestMerge.ListsAreOverlaid` | tools/sgpiom/sgpio_json_tool.py:59-88 | For every name the overlay's entries are merged over the base's first; with distinct names that is one merge, base under overlay, and the names are the base's in order and then the overlay's new ones |
| `ManifestMerge.SelfMergeIff` | tools/sgpiom/sgpio_json_tool.py:59-88 | A list merged with itself is itself if and only if its names are distinct and nameless entries come last |
| `ManifestMerge.MergeManifests` | tools/sgpiom/sgpio_json_tool.py:91-109 | The loop over any inputs computes the specified manifest, or fails where the tool raises an exception |
| `ManifestMerge.LaterManifestWins` | tools/sgpiom/sgpio_json_tool.py:91-109 | One more manifest over any merged so far: it fails if and only if listed banks or signals hold an entry that is not an object; otherwise banks and signals listed by both are overlaid by name, later over earlier, and every other field is that of the recursive merge |
| `ManifestMerge.SecondManifestWins` | tools/sgpiom/sgpio_json_tool.py:91-109 | The same for two manifests |
| `ManifestMerge.ManifestIdentities` | tools/sgpiom/sgpio_json_tool.py:91-109 | One manifest, or one with an empty overlay, is unchanged whatever its lists hold; with itself exactly when its bank and signal lists are of objects with distinct names, nameless ones last |
| `ManifestCheck.ValidateManifest` | tools/sgpiom/sgpio_json_tool.py:161-380 | No errors if and only if the manifest is well formed |
| `ManifestCheck.CheckBanks` | tools/sgpiom/sgpio_json_tool.py:218-291 | The bank pass with its running sets accepts exactly well-formed bank lists; the final sum check never fires alone |
| `ManifestCheck.SumFits` | tools/sgpiom/sgpio_json_tool.py:287-291 | Well-formed banks are disjoint ranges, so their sizes add up to at most the controller's lines |
| `ManifestCheck.CheckSignals` | tools/sgpiom/sgpio_json_tool.py:293-378 | The signal pass accepts exactly well-formed signal lists |
| `ManifestCheck.AcceptedLinesDistinct` | tools/sgpiom/sgpio_json_tool.py:161-380 | Two signals of an accepted manifest never share a physical line |
| `ManifestCheck.AcceptedLinesInRange` | tools/sgpiom/sgpio_json_tool.py:161-380 | Every signal's line is on the controller, and below 128 |
| `ManifestCheck.AcceptedLinesNotReserved` | tools/sgpiom/sgpio_json_tool.py:161-380 | No signal's line is a reserved pin of any bank |

## Left out

- FlashStaging.StagingIsSafe: excludes runs in which a caller changes the payload while a transfer is reported, which the seam forbids, and payloads shorter than the verified bytes, whose effect FlashStaging.ShorterPayloadPanics states.
- PldmStaging.StagingIsSafe: excludes the same two kinds of run, and PldmStaging.ShorterPayloadPanics states the effect of the second.
- PldmStaging.SwitchedPayloadReadyIff: stated for one change of payload after which no read fails; PldmStaging.StagingIsSafe covers runs with many changes and failed reads.
- Flash.Read: assumes a flash part below 4 GiB, so that 32-bit addresses do not wrap; the part's size is a `usize` of a 32-bit target.
- Flash.Program: assumes the same.
- MctpLoop.Dispatch: requires that the message it picks up fits the receive buffer, since the source panics on one that does not; the same holds for MctpLoop.Execute and MctpLoop.DrivePending.
- ManifestCheck.ValidateManifest: error texts are reduced to the check that failed and its index; parsing of hexadecimal strings is a parameter.
- A failed payload read leaves the destination untouched; a payload source that writes part of it is not modelled.
- The receive table's `remove` is taken to move the last entry into the gap, as the linear map of its library does.
- Transport failures of the I2C, MCTP and USART channels, which pass through unchanged.
- The interval until the next pass that the MCTP server reports, which is the router's own.
- Results of the USART interrupt control calls that the server itself makes, which it ignores.
- Bus recovery, target-mode configuration calls and logging of the I2C runtime.
- Flash erase, which is one forwarded call, and the driver's own timing.
- The aligned register copies: they add a cap on the number of registers to the word loops modelled here.
- The counting and busy devices among the staging mocks, and activation after staging.
- SPDM and PLDM message parsing, SMBus header parsing and the capture loop of the monitor.
- Rendering, canonical JSON and the command line of the manifest tool.
- Cryptography, attestation, OCP and boot services, and the hardware drivers.
