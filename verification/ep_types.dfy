/**
 * Values shared by the EventPipe session engine (src/native/eventpipe/ep.c):
 * session options, provider configurations, sessions, checkpoints,
 * provider-callback records and the trace of external effects through which
 * the model records what the engine asks its collaborators to do.
 */
module EpTypes {

  datatype Option<+T> = None | Some(value: T)

  type uint32 = x: int | 0 <= x < 0x1_0000_0000
  type uint64 = x: int | 0 <= x < 0x1_0000_0000_0000_0000
  type int64 = x: int | -0x8000_0000_0000_0000 <= x < 0x8000_0000_0000_0000

  const UINT32_MAX: uint32 := 0xFFFF_FFFF
  const UINT64_MAX: uint64 := 0xFFFF_FFFF_FFFF_FFFF

  /** EP_MAX_NUMBER_OF_SESSIONS: one bit of the 64-bit allow-write mask per slot. */
  const MaxSessions: nat := 64

  /** EventPipeState; only INITIALIZED and SHUTTING_DOWN satisfy "state >= INITIALIZED". */
  datatype EngineState = NotInitialized | Initialized | ShuttingDown

  predicate AtLeastInitialized(s: EngineState) {
    s != NotInitialized
  }

  datatype SessionType = File | Listener | IpcStream | Synchronous | FileStream | UserEvents

  /** ep_session_type_uses_buffer_manager: every type except synchronous and user-events sessions. */
  predicate UsesBufferManager(t: SessionType) {
    t != Synchronous && t != UserEvents
  }

  /** EP_SERIALIZATION_FORMAT_COUNT (NetPerf V3 and NetTrace V4). */
  const SerializationFormatCount: nat := 2
  const NetTraceV4Format: nat := 1

  /** EP_EVENT_LEVEL_VERBOSE, the most verbose event level. */
  const LevelVerbose: uint32 := 5

  const PublicProviderName: string := "Microsoft-Windows-DotNETRuntime"
  const PrivateProviderName: string := "Microsoft-Windows-DotNETRuntimePrivate"
  const SampleProfilerProviderName: string := "Microsoft-DotNETCore-SampleProfiler"

  /** EventPipeProviderConfiguration: provider name, keyword mask, level and filter data. */
  datatype ProviderConfig = ProviderConfig(name: string, keywords: uint64, level: uint32, filterData: Option<string>)

  /**
   * EventPipeSessionOptions. A NULL output path, provider array or stream is
   * None / false; the provider count is the length of the provider sequence.
   */
  datatype SessionOptions = SessionOptions(
    outputPath: Option<string>,
    circularBufferSizeInMB: uint32,
    providers: Option<seq<ProviderConfig>>,
    sessionType: SessionType,
    format: nat,
    rundownKeyword: uint64,
    stackwalkRequested: bool,
    hasStream: bool,
    userEventsDataFd: int)

  /** Session handles: 0 is reserved and never names a session. */
  type SessionId = nat

  /** A live session as the registry sees it: its handle, its slot and how it was configured. */
  datatype Session = Session(id: SessionId, index: nat, options: SessionOptions)

  /** session_requested_sampling: the session configures the sample-profiler provider. */
  predicate RequestedSampling(options: SessionOptions) {
    options.providers.Some? &&
    exists i :: 0 <= i < |options.providers.value| && options.providers.value[i].name == SampleProfilerProviderName
  }

  /** EventPipeExecutionCheckpoint: an optional name and a timestamp. */
  datatype ExecutionCheckpoint = ExecutionCheckpoint(name: Option<string>, timestamp: int64)

  /**
   * EventPipeProviderCallbackData, without the callback function and
   * callback-data pointers; the provider is named rather than pointed to.
   */
  datatype ProviderCallbackData = ProviderCallbackData(
    provider: Option<string>,
    filterData: Option<string>,
    keywords: int64,
    providerLevel: uint32,
    enabled: bool,
    sessionId: SessionId)

  /** The record left behind in the source of a move (memset to zero). */
  const ZeroCallbackData: ProviderCallbackData := ProviderCallbackData(None, None, 0, 0, false, 0)

  type ActivityId = seq<bv8>

  /** What one event write carries besides its payload. */
  datatype EventRecord = EventRecord(event: nat, activity: Option<ActivityId>, related: Option<ActivityId>)

  /** The flat payload: its data pointer may be NULL. */
  datatype Payload = Payload(flatData: Option<seq<bv8>>)

  /**
   * External effects, in the order the engine causes them. `published` records
   * whether the session was still reachable from the registry (its slot or its
   * allow-write bit) at that moment; `marker` records the writing thread's
   * write-in-progress marker at the moment of the write.
   */
  datatype Effect =
    | SamplerInitialized
    | EventSourceEnabled(session: SessionId)
    | TracingConfigured(session: SessionId, enable: bool)
    | SamplingEnabled
    | SamplingDisabled
    | ProcessInfoLogged
    | SessionDisabled(session: SessionId)
    | RundownEnabled(session: SessionId)
    | RundownExecuted(session: SessionId, checkpoints: seq<ExecutionCheckpoint>, rundownThread: Option<SessionId>, published: bool)
    | WritesSuspended(session: SessionId, published: bool)
    | BuffersFlushed(session: SessionId)
    | SequencePointWritten(session: SessionId)
    | SessionReleased(session: SessionId)
    | StreamingStarted(session: SessionId)
    | SamplingMayStart
    | EventWritten(session: SessionId, slot: nat, marker: nat, record: EventRecord)
    | RundownEventWritten(session: SessionId, record: EventRecord)
    | CallbackInvoked(data: ProviderCallbackData)

  /** The trace left by draining a callback queue: one invocation per record, in order. */
  function Invocations(records: seq<ProviderCallbackData>): (effects: seq<Effect>)
    ensures |effects| == |records|
    ensures forall i :: 0 <= i < |records| ==> effects[i] == CallbackInvoked(records[i])
  {
    if records == [] then [] else [CallbackInvoked(records[0])] + Invocations(records[1..])
  }
}
