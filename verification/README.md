# EventPipe session engine and VM integer helpers, in Dafny

This project models two pieces of the .NET runtime.

**The EventPipe session engine** (`src/native/eventpipe/ep.c`) is the control logic of the runtime's event-tracing engine.
- **Registry.** It keeps up to 64 tracing sessions in a fixed slot table, with a 64-bit allow-write word and a session count.
- **Sessions.** It enables and disables sessions, and fans each event out to the sessions whose bit is set.
- **Deferred queues.** Start-streaming and disable requests that arrive before the runtime lets threads start are queued and replayed by `ep_finish_init`.
- **Provider configuration.** It parses the `Name:Keywords:Level:Args,...` text.
- **Provider callbacks.** It queues these while its lock is held and invokes them afterwards.

**Helpers from the CoreCLR VM utility header** (`src/coreclr/vm/util.hpp`):
- the `FitsIn*` range checks;
- Lemire's fast modulo;
- the JIT and GC notification entries that the debugger's data-access layer reads.

Modules:

- `Util` (`util.dfy`): range checks, `GetFastModMultiplier`/`FastMod` with the proof that `FastMod` is `%`, and the `JITNotification` and `GcNotification` classes.
- `EpTypes` (`ep_types.dfy`): the values the engine works on. These are session options, provider configurations, sessions, checkpoints, callback records, and the `Effect` trace.
- `EpMask` (`ep_mask.dfy`): the bit arithmetic on the 64-bit allow-write word.
- `EpRegistry` (`ep_registry.dfy`): the registry invariant over the slot sequence, the handle bookkeeping, and the fan-out of one event write.
- `EpCallbackQueue` (`ep_callback_queue.dfy`): the provider-callback FIFO, as a class.
- `EpConfig` (`ep_config.dfy`): the provider-configuration grammar as a function, and the cursor-based parser of `ep_enable_2` as methods proved equal to it.
- `EventPipe` (`eventpipe.dfy`): the engine.
  - The globals of `ep.c` become the fields of one `EventPipeEngine` object. The 64 slots are an `array`.
  - Each entry point becomes a method that runs as one sequential step.
  - What the engine asks of its collaborators is appended to an effect log. This covers sessions, provider configuration, the sample profiler, the event source and callback invocation.
  - The log's `Effect` values record each request in order.

Session handles are the session's address in the source. Here they are numbers handed out from a counter that never repeats. The engine's `sessionIndex` map remembers the slot that each handle's session recorded. This is what `ep_is_session_enabled` reads when it dereferences a handle.

Where this description and the code disagree, the model follows the code:
- **Deferring a disable.** `ep_disable` defers only while threads may not start *and* no diagnostic port holds the runtime suspended (`ep.c:1247`). It is not enough that threads may not start.
- **An omitted keywords field** gives mask 0 (`ep.c:1106`), not all keywords.
- **An empty keywords field** gives `UINT64_MAX` whenever it is read: when a `:` closes it (`Name::5`, `EpConfig.EmptyKeywordsBeforeLevel`) or when it ends the string (`Name:`, `EpConfig.TrailingEmptyKeywords`). Only an empty last field closed by a `,` (`Name:,`) is skipped, and then the mask stays 0 (`EpConfig.EmptyKeywordsBeforeComma`).

Some constants come from headers outside this model. The model uses their released values:
- `EP_MAX_NUMBER_OF_SESSIONS` = 64, which the 64-bit allow-write word also implies;
- `EP_EVENT_LEVEL_VERBOSE` = 5;
- two serialization formats;
- the runtime provider names;
- `GC_MARK_END` = 1 and `GC_EVENT_TYPE_MAX` = 2;
- the `CLRDATA_METHNOTIFY_*` flags.

The body of `IsValidMethodCodeNotification` lives in `util.cpp`, which is not part of this model. It is modelled as "no bit set besides the GENERATED and DISCARDED flags".

## Model

| member | source | states |
|---|---|---|
| Util.FitsInI1 | src/coreclr/vm/util.hpp:35-39 | true exactly when the value lies in the signed 8-bit range [-128, 127] |
| Util.FitsInI2 | src/coreclr/vm/util.hpp:41-45 | true exactly when the value lies in the signed 16-bit range |
| Util.FitsInI4 | src/coreclr/vm/util.hpp:47-51 | true exactly when the value lies in the signed 32-bit range |
| Util.FitsInU1 | src/coreclr/vm/util.hpp:53-57 | true exactly when the unsigned value is below 2^8 |
| Util.FitsInU2 | src/coreclr/vm/util.hpp:59-63 | true exactly when the unsigned value is below 2^16 |
| Util.FitsInU4 | src/coreclr/vm/util.hpp:65-69 | true exactly when the unsigned value is below 2^32 |
| Util.GetFastModMultiplier | src/coreclr/vm/util.hpp:888-891 | the multiplier M = UINT64_MAX / d + 1 wraps to 0 for d = 1; for d > 1, M·d lies in [2^64, 2^64 + d) |
| Util.MultiplierBounds | src/coreclr/vm/util.hpp:888-891 | before wrapping, M·d lies in [2^64, 2^64 + d), and M < 2^64 once d > 1 |
| Util.FastModIsRemainder | src/coreclr/vm/util.hpp:893-899 | for 0 < divisor ≤ INT_MAX and every 32-bit value, FastMod with 64-bit wrapping arithmetic equals value % divisor (the assertion at line 897) |
| Util.FastModAboveOne | src/coreclr/vm/util.hpp:893-899 | the same equality for divisors from 2 to INT_MAX |
| Util.FastModByOne | src/coreclr/vm/util.hpp:888-899 | for divisor 1, whose multiplier wraps to 0, FastMod still returns 0 = value % 1 |
| Util.JITNotification.constructor | src/coreclr/vm/util.hpp:577-579 | a new entry is free, with module 0 and token 0 |
| Util.JITNotification.SetFree | src/coreclr/vm/util.hpp:579 | afterwards the state is NONE, the module and the token are 0, and the entry is free |
| Util.JITNotification.SetState | src/coreclr/vm/util.hpp:580-586 | stores exactly the given module, token and state (a valid notification is required); the entry is free afterwards exactly when the state is NONE |
| Util.IsValidGcNotification | src/coreclr/vm/util.hpp:637-639 | valid exactly for the types below GC_EVENT_TYPE_MAX: NONE and GC_MARK_END |
| Util.GcNotification.constructor | src/coreclr/vm/util.hpp:647-649 | a new entry is all zero and free |
| Util.GcNotification.SetFree | src/coreclr/vm/util.hpp:649 | clears the entry; IsFree holds afterwards |
| Util.GcNotification.Set | src/coreclr/vm/util.hpp:650-654 | requires a valid event type, and stores the event unchanged |
| Util.GcNotification.IsMatch | src/coreclr/vm/util.hpp:655-676 | a match needs equal types, both GC_MARK_END; a free entry matches nothing |
| Util.MarkEndMatchesRequestedGeneration | src/coreclr/vm/util.hpp:664-670 | a GC_MARK_END request matches the event that condemns generation g exactly when g is among the requested generations |
| Util.MarkEndMatchesSharedGeneration | src/coreclr/vm/util.hpp:655-676 | for any GC_MARK_END request and any event condemnation mask: a match exactly when the event names no generation or the two masks share a generation |
| Util.MarkEndMatchIsOverlap | src/coreclr/vm/util.hpp:664-669 | a GC_MARK_END match is exactly a zero event mask or a nonzero AND of the two masks |
| Util.OverlapIffSharedBit | src/coreclr/vm/util.hpp:666-667 | two masks have a nonzero AND exactly when some generation bit is set in both |
| Util.MarkEndWithoutGenerationMatches | src/coreclr/vm/util.hpp:665-669 | a GC_MARK_END event naming no generation matches every GC_MARK_END request |
| EpMask.MaskHasOneBit | src/native/eventpipe/ep.c:830 | the mask of slot b has bit c set exactly when c = b |
| EpMask.OrBits | src/native/eventpipe/ep.c:599 | OR-ing a slot's mask into the word sets that slot's bit and leaves every other bit unchanged |
| EpMask.AndNotBits | src/native/eventpipe/ep.c:675 | AND-ing with the complement of a slot's mask clears that slot's bit and leaves every other bit unchanged |
| EpMask.SetBit | src/native/eventpipe/ep.c:599 | after the OR, bit c is set exactly when it was set before or c is the session's slot |
| EpMask.ClearBit | src/native/eventpipe/ep.c:675 | after the clear, bit c is set exactly when it was set before and c is not the session's slot |
| EpMask.NoBits | src/native/eventpipe/ep.c:134-140 | the zero word the engine starts from publishes no slot |
| EpMask.PublishBits | src/native/eventpipe/ep.c:599 | the published slots after the OR are those before plus the session's slot |
| EpMask.WithdrawBits | src/native/eventpipe/ep.c:675 | the published slots after the AND-NOT are those before minus the session's slot |
| EpTypes.Invocations | src/native/eventpipe/ep.c:1218-1222 | draining the queue invokes each record exactly once, in queue order |
| EpCallbackQueue.ProviderCallbackDataQueue.constructor | src/native/eventpipe/ep.c:200-206 | a new queue is empty |
| EpCallbackQueue.ProviderCallbackDataQueue.Enqueue | src/native/eventpipe/ep.c:1727-1741 | the record joins the back of the queue, and the caller's record is left zeroed by the move |
| EpCallbackQueue.ProviderCallbackDataQueue.TryDequeue | src/native/eventpipe/ep.c:1744-1764 | false exactly when the queue is empty, with nothing changed; otherwise returns the front record and removes it |
| EpRegistry.OccupiedFill | src/native/eventpipe/ep.c:597-600 | storing a session in a free slot raises the number of occupied slots by one |
| EpRegistry.OccupiedClear | src/native/eventpipe/ep.c:681-688 | emptying an occupied slot lowers the number of occupied slots by one |
| EpRegistry.OccupiedPositive | src/native/eventpipe/ep.c:1318-1322 | the count of occupied slots is positive exactly when some slot holds a session |
| EpRegistry.FirstFree | src/native/eventpipe/ep.c:485-493 | the lowest free slot: every slot before it is taken, and it is free unless it equals the length |
| EpRegistry.RegisterKeepsInvariant | src/native/eventpipe/ep.c:597-600 | storing a session in a free slot, setting its bit and incrementing the count keeps "bit set exactly for occupied slots, count = occupied slots, every session at its own index" |
| EpRegistry.UnregisterKeepsInvariant | src/native/eventpipe/ep.c:675-688 | clearing the bit, emptying the slot and decrementing the count keeps the same invariant, and the count was positive |
| EpRegistry.PublishOrderKeepsWritersSafe | src/native/eventpipe/ep.c:597-599 | with the slot stored before the bit is set, every set bit names an occupied slot, both between the two stores and after them |
| EpRegistry.UnpublishOrderKeepsWritersSafe | src/native/eventpipe/ep.c:675-681 | with the bit cleared before the slot is emptied, every set bit names an occupied slot, both between the two stores and after them |
| EpRegistry.HandlesMatchFill | src/native/eventpipe/ep.c:572-597 | a fresh handle stored in a free slot, with its slot recorded, keeps every stored handle nonzero, below the next handle and recorded at its own slot |
| EpRegistry.HandlesMatchClear | src/native/eventpipe/ep.c:681 | emptying a slot keeps the handle bookkeeping consistent |
| EpRegistry.RecordedSlot | src/native/eventpipe/ep.c:1572-1577 | the session stored in slot i is registered, and slot i is the one that holds it |
| EpRegistry.ClearedNotRegistered | src/native/eventpipe/ep.c:681 | once its slot is emptied, the session's handle is no longer registered |
| EpRegistry.HandlesAreUnique | src/native/eventpipe/ep.c:497-512 | no handle is stored in two slots |
| EpRegistry.RegisteredAtRecordedSlot | src/native/eventpipe/ep.c:1290-1294 | a registered handle sits in the slot its session recorded |
| EpRegistry.ZeroNeverRegistered | src/native/eventpipe/ep.c:715-716 | handle 0 never names a registered session |
| EpRegistry.SessionEnabledAsWritten | src/native/eventpipe/ep.c:1290-1294 | the check as written reports every handle the intended check reports, and only nonzero handles |
| EpRegistry.StaleHandleReportsEnabled | src/native/eventpipe/ep.c:1290-1294 | a handle whose session is gone, and whose slot a later session took, is reported enabled by the check as written |
| EpRegistry.SessionEnabledIffRegistered | src/native/eventpipe/ep.c:1290-1294 | the intended check reports enabled exactly for registered handles |
| EpRegistry.FanoutIsBroadcast | src/native/eventpipe/ep.c:829-858 | under the registry invariant, visiting the slots whose bit is set writes the same as visiting every occupied slot, in ascending order |
| EpRegistry.BroadcastCount | src/native/eventpipe/ep.c:829-858 | the first n slots receive one write per occupied slot |
| EpRegistry.BroadcastReaches | src/native/eventpipe/ep.c:829-858 | every occupied slot below n receives the event, carrying that slot as the in-progress marker |
| EpRegistry.BroadcastTargets | src/native/eventpipe/ep.c:829-858 | every write goes to the session stored in its slot, carries that slot as the marker, and carries the event unchanged |
| EpRegistry.FanoutWritesOncePerSession | src/native/eventpipe/ep.c:829-858 | one event write reaches exactly as many sessions as the count says |
| EpConfig.SegmentCount | src/native/eventpipe/ep.c:1090-1097 | the number of providers is the number of ',' plus one, unless the string ends with ',' |
| EpConfig.EntriesConfigSpec | src/native/eventpipe/ep.c:1104-1136 | the parse succeeds exactly when every entry has a name, and then the i-th provider is the i-th entry's |
| EpConfig.ProviderNamesNonEmpty | src/native/eventpipe/ep.c:1110-1112 | every provider of a successful parse has a non-empty name |
| EpConfig.EmptyNameRejects | src/native/eventpipe/ep.c:1110-1112 | an entry whose name field is empty makes the whole parse fail |
| EpConfig.GetNextConfigValue | src/native/eventpipe/ep.c:864-882 | the value runs to the first ',', ':' or the end; the cursor becomes NULL at the end, stays on a ',' and moves past a ':' |
| EpConfig.GetNextConfigValueAsString | src/native/eventpipe/ep.c:886-901 | the value as a copied string, or NULL when it is empty; the cursor moves as above |
| EpConfig.GetNextConfigValueAsUint64 | src/native/eventpipe/ep.c:905-917 | the value read as hexadecimal, or UINT64_MAX when it is empty |
| EpConfig.GetNextConfigValueAsUint32 | src/native/eventpipe/ep.c:921-933 | the value read as decimal and truncated to 32 bits, or UINT32_MAX when it is empty |
| EpConfig.ReadTest | src/native/eventpipe/ep.c:1110-1122 | the loop's "cursor not NULL and not on ','" test passes exactly when the next field is read, and once it fails no later field is read |
| EpConfig.BeforeTest | src/native/eventpipe/ep.c:1115-1122 | the same test, for a cursor that may already be past the entry's fields |
| EpConfig.ReadStep | src/native/eventpipe/ep.c:864-882 | one value read consumes exactly the next field of the entry |
| EpConfig.ReadKeywords | src/native/eventpipe/ep.c:1115-1116 | the keywords are the read field's hexadecimal value, or 0 when the field is not read |
| EpConfig.ReadLevel | src/native/eventpipe/ep.c:1118-1119 | the level is the read field's decimal value, or verbose when the field is not read |
| EpConfig.ReadArguments | src/native/eventpipe/ep.c:1121-1122 | the arguments are the read field, or none when it is not read or is empty |
| EpConfig.ParseEntry | src/native/eventpipe/ep.c:1104-1126 | one pass of the parse loop yields exactly the provider the entry's grammar gives, or failure for an empty name |
| EpConfig.SkipToNextEntry | src/native/eventpipe/ep.c:1131-1135 | the cursor moves past the entry's ',' or to the end of the string |
| EpConfig.CountProviders | src/native/eventpipe/ep.c:1090-1097 | the counting loop counts one provider per entry |
| EpConfig.ParseStep | src/native/eventpipe/ep.c:1104-1136 | after each pass, the providers so far followed by the meaning of the rest of the string equal the meaning of the whole string |
| EpConfig.ParseProviderConfig | src/native/eventpipe/ep.c:1079-1137 | a NULL or empty string gives the three default providers; otherwise the result is exactly the grammar's meaning: one provider per entry, or failure |
| EpConfig.BareNameConfig | src/native/eventpipe/ep.c:1104-1124 | a bare name enables that provider with keywords 0 at the verbose level |
| EpConfig.TrailingEmptyKeywords | src/native/eventpipe/ep.c:909-916 | `Name:` at the end of the string reads an empty keywords field, which gives UINT64_MAX |
| EpConfig.EmptyKeywordsBeforeLevel | src/native/eventpipe/ep.c:1115-1119 | `Name::level` reads the empty keywords field, which gives UINT64_MAX, and then reads the level |
| EpConfig.EmptyKeywordsBeforeComma | src/native/eventpipe/ep.c:1115-1116 | `Name:,` skips the empty keywords field, so the mask is 0 |
| EpConfig.FullEntryThenBareName | src/native/eventpipe/ep.c:1104-1136 | `Name:Keywords:Level,Next` gives the name with hexadecimal keywords and decimal level, then Next with keywords 0 at the verbose level |
| EpConfig.TwoProvidersExample | src/native/eventpipe/ep.c:1104-1136 | `Foo:10:3,Bar` gives Foo with keywords 0x10 at level 3, then Bar with keywords 0 at the verbose level |
| EpConfig.AsWrittenDiffersOnlyOnEmptyEntries | src/native/eventpipe/ep.c:1110-1113 | on any non-empty entry, the loop as written and the corrected grammar agree |
| EpConfig.EmptyEntryBetween | src/native/eventpipe/ep.c:1110-1124 | for `A,,B`, the loop as written yields a provider with a NULL name between A and B, where the corrected parse fails |
| EpConfig.EmptyEntryExample | src/native/eventpipe/ep.c:1110-1124 | the same for `Foo,,Bar` |
| EventPipe.CheckOptionsValid | src/native/eventpipe/ep.c:514-531 | valid exactly when all six checks pass: the format is below the count; a buffer-managed type has a positive buffer size; the provider list is non-NULL and non-empty; file and file-stream sessions have an output path; IPC sessions have a stream; a user-events session has an fd other than -1. Valid options meet the assertions of `enable` |
| EventPipe.DisabledAllSnoc | src/native/eventpipe/ep.c:1544-1546 | carrying out one more queued disable applies one more disable to the slots, and appends that disable's trace and callbacks to the log |
| EventPipe.DisabledAllEmptiesExactly | src/native/eventpipe/ep.c:1542-1549 | after disabling the queued handles in order, exactly the slots holding a queued handle are empty, and every other slot is unchanged |
| EventPipe.DisabledAllUnregisters | src/native/eventpipe/ep.c:1542-1549 | the same, and no queued handle is registered afterwards |
| EventPipe.EventPipeEngine.constructor | src/native/eventpipe/ep.c:134-140 | the engine starts uninitialized: no sessions, no bits set, count 0, empty queues |
| EventPipe.EventPipeEngine.EnabledIffSessionRegistered | src/native/eventpipe/ep.c:1317-1322 | `ep_enabled` holds exactly when the engine is initialized and some slot holds a session |
| EventPipe.EventPipeEngine.GenerateSessionIndex | src/native/eventpipe/ep.c:485-493 | returns the lowest free slot, or 64 when every slot is taken |
| EventPipe.EventPipeEngine.IsSessionIdInCollection | src/native/eventpipe/ep.c:497-512 | true exactly when some slot holds the session with that handle |
| EventPipe.EventPipeEngine.QueueConfigCallbacks | src/native/eventpipe/ep.c:603 | the callbacks that switching the session's providers produces join the queue in order |
| EventPipe.EventPipeEngine.DrainCallbacks | src/native/eventpipe/ep.c:1218-1222 | the queue ends empty, and each record that was queued is invoked once, in order |
| EventPipe.EventPipeEngine.Register | src/native/eventpipe/ep.c:597-600 | stores the session in its slot, sets the slot's bit and increments the count, keeping the registry invariant |
| EventPipe.EventPipeEngine.Enable | src/native/eventpipe/ep.c:535-616 | returns a handle ≠ 0 exactly when the engine is initialized, a slot is free, the count is below 64 and the event source accepts the session. When the event source refuses it, the session is released and nothing is registered. Past the state, slot and count checks, the callbacks that the sampler's set-up queues come first, on both the refusal path and the success path. On success the session sits in the lowest free slot with its bit set and the count one higher. Its providers are switched on, and their callbacks are queued after the sampler's. On failure nothing is registered |
| EventPipe.EventPipeEngine.RoomMeansCountBelowMax | src/native/eventpipe/ep.c:580-583 | under the invariant, a free slot implies the count is below 64, so that failure path is unreachable |
| EventPipe.EventPipeEngine.Enable3 | src/native/eventpipe/ep.c:1203-1232 | invalid options return 0 and change nothing. Otherwise it behaves as `enable`, including the return of 0 when the event source refuses the session, and the queued callbacks, the sampler's and then the providers', are invoked afterwards in order |
| EventPipe.EventPipeEngine.EnableFromConfig | src/native/eventpipe/ep.c:1060-1164 | a rejected configuration returns 0 and changes nothing. Otherwise it returns a handle ≠ 0 exactly when the built options are valid, the engine is initialized, a slot is free, the count is below 64 and the event source accepts the session. A handle of 0 leaves the slots, bits and count alone. On success the session, carrying the parsed providers with stack walks requested, sits in the lowest free slot with its bit set and the count one higher, and its effects and then the sampler's and the providers' callbacks are logged in order |
| EventPipe.EventPipeEngine.Rundown | src/native/eventpipe/ep.c:657-673 | enables the rundown provider. When a thread record exists, it marks the thread, switches the providers on, runs the rundown over the checkpoints, switches them off again and unmarks the thread |
| EventPipe.EventPipeEngine.Quiesce | src/native/eventpipe/ep.c:643-673 | stops sampling if the session asked for it, logs process info, switches the providers off and disables the session. The rundown runs only with a nonzero rundown keyword while threads may start |
| EventPipe.EventPipeEngine.Unregister | src/native/eventpipe/ep.c:675-688 | clears the bit, empties the slot and decrements the count. No writer can still reach the session when its writes are suspended |
| EventPipe.EventPipeEngine.DisableHoldingLock | src/native/eventpipe/ep.c:631-704 | the handle is no longer registered afterwards. An unknown handle changes nothing. A registered one has its slot emptied, its effects logged in source order, and its callbacks queued |
| EventPipe.EventPipeEngine.DisableSession | src/native/eventpipe/ep.c:640-700 | for the session in slot k: the slot emptied, the bit cleared, the count decremented, and the full disable trace logged |
| EventPipe.EventPipeEngine.DisableHelper | src/native/eventpipe/ep.c:708-751 | handle 0 and a zero count change nothing. Otherwise the session is disabled under the lock, and its callbacks are then invoked in order |
| EventPipe.EventPipeEngine.Disable | src/native/eventpipe/ep.c:1235-1262 | while threads may not start and no port is suspended, the handle joins the deferred-disable queue and nothing else changes; otherwise it is disabled at once |
| EventPipe.EventPipeEngine.StartStreaming | src/native/eventpipe/ep.c:1297-1315 | an unregistered handle changes nothing. A registered one starts streaming when threads may start, and otherwise joins the deferred-enable queue |
| EventPipe.EventPipeEngine.IsSessionEnabled | src/native/eventpipe/ep.c:1290-1294 | (corrected) true exactly when the handle is registered |
| EventPipe.EventPipeEngine.WriteEvent | src/native/eventpipe/ep.c:755-786 | nothing is written before initialization or for a disabled event. A write from a runtime thread without an activity id takes the thread's own |
| EventPipe.EventPipeEngine.WriteEvent2 | src/native/eventpipe/ep.c:790-860 | nothing is written before initialization. A rundown thread writes a flat payload only to its rundown session. Any other thread writes once to each session whose bit is set, in slot order, with the marker set to the slot; the marker ends at UINT32_MAX |
| EventPipe.EventPipeEngine.AddRundownExecutionCheckpoint | src/native/eventpipe/ep.c:1694-1720 | appends the checkpoint and returns true |
| EventPipe.EventPipeEngine.Init | src/native/eventpipe/ep.c:1460-1513 | a second call changes nothing. The first empties every slot, starts with empty queues and no checkpoints, and moves to INITIALIZED |
| EventPipe.EventPipeEngine.FinishInit | src/native/eventpipe/ep.c:1516-1557 | threads may start afterwards. When initialized: deferred starts of still-registered sessions run in order, then sampling may start, then each deferred disable is carried out in queue order. Exactly the slots holding a queued handle end empty, no queued handle stays registered, both queues end empty, and the log is exactly those steps' effects in that order |
| EventPipe.EventPipeEngine.StartDeferredStreams | src/native/eventpipe/ep.c:1525-1533 | starts streaming for each queued handle that is still registered, in queue order, then clears the queue |
| EventPipe.EventPipeEngine.DisableDeferred | src/native/eventpipe/ep.c:1542-1549 | the queued disables are carried out in order: exactly the slots holding a queued handle end empty, every other slot is unchanged, no queued handle stays registered, the log gains exactly each disable's trace and callbacks in order, and the queue is cleared |
| EventPipe.EventPipeEngine.DisableQueued | src/native/eventpipe/ep.c:1544-1546 | one step of that loop: the slots and the log after it are the fold over the handles done so far plus this one |
| EventPipe.EventPipeEngine.Shutdown | src/native/eventpipe/ep.c:1560-1602 | only an initialized engine outside process detach shuts down. It moves to SHUTTING_DOWN, disables every non-listener session (or defers those disables), and drops the checkpoints and both queues. The log gains exactly the disables' traces and callbacks, slot by slot |
| EventPipe.EventPipeEngine.DisableNonListeners | src/native/eventpipe/ep.c:1572-1578 | slot by slot, every non-listener session is disabled (when the disable is not deferred), and listeners stay. The log gains exactly each disable's trace and callbacks, in slot order (`ShutdownTrace`) |
| EventPipe.EventPipeEngine.ShutDownNext | src/native/eventpipe/ep.c:1572-1578 | one pass of that loop extends the slots and the log from slot i to slot i + 1 |
| EventPipe.EventPipeEngine.ShutDownSlot | src/native/eventpipe/ep.c:1573-1577 | only slot i may change, and it is emptied exactly when it held a non-listener session and the disable is not deferred. The log gains exactly that disable's trace and callbacks |
| EventPipe.EventPipeEngine.ShutDownSession | src/native/eventpipe/ep.c:1575-1576 | the non-listener in slot i is disabled, or its disable deferred, with the slot and the log stated exactly |
| EventPipe.SlotShutdownIsDisable | src/native/eventpipe/ep.c:1575-1576 | the trace of one shutdown slot is the registered session's disable trace followed by its callbacks |
| EventPipe.EnableRegistersFreshHandle | src/native/eventpipe/ep.c:572-600 | the handle `enable` returns is nonzero and was unregistered before, and `ep_is_session_enabled` reports it enabled straight afterwards |
| EventPipe.EnableThenDisableRestoresSlots | src/native/eventpipe/ep.c:597-681 | disabling the session that `enable` just stored gives back the slots as they were |
| EventPipe.DisableTwiceIsNoop | src/native/eventpipe/ep.c:640 | a second disable of a handle changes no slot, logs nothing and queues no callback |
| EventPipe.EmptySlots | src/native/eventpipe/ep.c:1473-1474 | with every slot empty, the number of occupied slots is 0 |
| EventPipe.FirstFreeIs | src/native/eventpipe/ep.c:485-493 | a free slot with every earlier slot taken is the lowest free slot |

## Left out

- **Concurrency.** The model leaves out the volatile loads and stores, the configuration lock, `EP_GCX_PREEMP_*` and the spin-wait in `ep_session_suspend_write_event`. Each entry point is one sequential step. The writer-safety of the publish and unpublish orders is stated for the intermediate states, through `EpRegistry.PublishOrderKeepsWritersSafe` and `EpRegistry.UnpublishOrderKeepsWritersSafe`. A concurrent writer is not modelled.
- **The allow-write word** is held as the set of slots whose bit is set. `EpMask` proves that the 64-bit OR, AND-NOT and test operations act on that set one bit at a time. `EpMask.Bits` reads the set off a word, and `EpMask.PublishBits` and `EpMask.WithdrawBits` show the OR adds the slot and the AND-NOT removes it.
- **Session internals.** `ep_session_*`, `config_enable_disable`, the sample profiler, the event source and `provider_invoke_callback` are foreign calls. They become entries of the effect log. The one result the engine branches on, whether `ep_event_source_enable` accepts a new session (`ep.c:589`), is an input of `Enable`, `Enable3` and `EnableFromConfig`. So are the callbacks that `ep_sample_profiler_init` queues (`ep.c:586`). Those are none once the sampler is registered. The callbacks `config_enable_disable` queues are a parameter of the engine's methods.
- **Allocation failures** are left out: `ep_session_alloc`, vector allocation, queue pushes and checkpoint allocation always succeed. Their error paths are not modelled.
- **`ep_session_is_valid`** is not modelled: a freshly allocated session is always valid. A full table returns at `ep.c:552-553`, before any session is allocated, so nothing is released there. The range check on the new session's index (`ep.c:574-578`) cannot fail, because that index is the one `generate_session_index` returned below the maximum. The existing-session check (`ep.c:592-595`) cannot fail under the registry invariant. The count check (`ep.c:580-583`) is modelled with its release, and `EventPipe.EventPipeEngine.RoomMeansCountBelowMax` shows it cannot fail either.
- **Runtime hooks with no engine state are left out:** `ep_rt_init`, `ep_rt_thread_setup`, `ep_thread_init`, `ep_config_init`, the provider and event registration in `ep_init`, the sampling rate, `ep_rt_shutdown` and `log_process_info_event`'s command line.
- **`enable_default_session_via_env_variables`** reads the environment, so it is not modelled.
- **`ep_get_session`** is not modelled; only `ep_is_session_enabled` is.
- **`ep_enable`** is folded into `EventPipe.EventPipeEngine.EnableFromConfig`, which builds the same options. The synchronous callback and its data are not modelled. The stream is modelled only as present or absent (`hasStream`). The user-events fd is 0, the value `ep_enable` passes.
- **Number conversion.** `strtoull`/`strtoul` are modelled for digit strings with an optional `0x` prefix, stopping at the first non-digit and sticking at the maximum on overflow. Leading whitespace and signs are not modelled. `unsigned long` is taken to be 64 bits wide, so `(uint32_t)strtoul(...)` (`ep.c:929`) keeps the low 32 bits of a value saturated at UINT64_MAX. Where `unsigned long` is 32 bits, values from 2^32 upward would give UINT32_MAX instead.
- **Thread records.** When `ep_thread_get_or_create` fails the model gives a null thread record. The debug assertions on that path are not modelled.
- **Shutdown drops its queues.** After shutdown, `ep_shutdown` frees the deferred queues and the checkpoint list and sets them to NULL. The model empties them instead, and later calls that would find them NULL are not distinguished.
- **Reference counting and freeing** of sessions are not modelled. `SessionReleased` in the log marks where the source drops its reference.
- **`JITNotifications`, `GcNotifications`** and the rest of `util.hpp` are declared there without bodies, or are runtime plumbing, so they are not modelled.

## Findings

| source | as written | input that shows it | evidently intended | confidence | as-written member | corrected member |
|---|---|---|---|---|---|---|
| src/native/eventpipe/ep.c:1110-1124 | An entry that begins with `,` skips the name read. That leaves the name NULL, and the provider is still configured. `ep_provider_config_init` only asserts that the name is non-NULL (line 409). | `Foo,,Bar` | an empty name fails the whole parse, as it does when the name read returns nothing (line 1112) | not executed | EpConfig.EmptyEntryExample | EpConfig.ParseProviderConfig |
| src/native/eventpipe/ep.c:1290-1294 | `ep_is_session_enabled` dereferences the handle. It reports whether the slot that session recorded is occupied now, by any session. | enable A in slot 0, disable A, enable B (it takes slot 0 again), then ask about A's handle | true exactly for registered handles, as the other handle checks (`is_session_id_in_collection`, line 497) do | not executed: as written, the call reads a freed session | EpRegistry.StaleHandleReportsEnabled | EventPipe.EventPipeEngine.IsSessionEnabled |
