/**
 * The EventPipe session engine of src/native/eventpipe/ep.c: the global
 * state (engine state, the 64 session slots, the allow-write word, the
 * session count, the deferred start/disable vectors and the rundown
 * checkpoints) as the fields of one object, and each public entry point as
 * one sequential step on it. What the engine asks of sessions, the provider
 * configuration, the sample profiler and the event source is appended to
 * the engine's effect log.
 */
module EventPipe {
  import opened EpTypes
  import opened EpRegistry
  import opened EpCallbackQueue
  import EpConfig

  /**
   * The provider callbacks config_enable_disable queues when it enables
   * (true) or disables (false) tracing for a session.
   */
  type ConfigCallbacks = (SessionId, bool) -> seq<ProviderCallbackData>

  /**
   * check_options_valid: a valid option set satisfies everything enable
   * asserts of its options.
   */
  function CheckOptionsValid(o: SessionOptions): (valid: bool)
    ensures valid ==> o.format < SerializationFormatCount
    ensures valid ==> (UsesBufferManager(o.sessionType) ==> o.circularBufferSizeInMB > 0)
    ensures valid ==> o.providers.Some? && |o.providers.value| > 0
    ensures valid <==>
      o.format < SerializationFormatCount
      && !(UsesBufferManager(o.sessionType) && o.circularBufferSizeInMB == 0)
      && !(o.providers.None? || o.providers.value == [])
      && !((o.sessionType == File || o.sessionType == FileStream) && o.outputPath.None?)
      && !(o.sessionType == IpcStream && !o.hasStream)
      && !(o.sessionType == UserEvents && o.userEventsDataFd == -1)
  {
    if o.format >= SerializationFormatCount then false
    else if o.circularBufferSizeInMB <= 0 && UsesBufferManager(o.sessionType) then false
    else if o.providers.None? || |o.providers.value| <= 0 then false
    else if (o.sessionType == File || o.sessionType == FileStream) && o.outputPath.None? then false
    else if o.sessionType == IpcStream && !o.hasStream then false
    else if o.sessionType == UserEvents && o.userEventsDataFd == -1 then false
    else true
  }

  /** The options ep_enable builds for ep_enable_2: stack walks on, no user-events descriptor. */
  function EnableOptions(outputPath: Option<string>, circularBufferSizeInMB: uint32,
                         providers: seq<ProviderConfig>, sessionType: SessionType, format: nat,
                         rundownKeyword: uint64, hasStream: bool): SessionOptions
  {
    SessionOptions(outputPath, circularBufferSizeInMB, Some(providers), sessionType, format,
                   rundownKeyword, true, hasStream, 0)
  }

  /** The effects of a session's rundown: the rundown provider, then the rundown itself when a thread runs it. */
  function RundownTrace(id: SessionId, thread: bool, checkpoints: seq<ExecutionCheckpoint>): seq<Effect> {
    [RundownEnabled(id)]
    + (if thread then [TracingConfigured(id, true), RundownExecuted(id, checkpoints, Some(id), true), TracingConfigured(id, false)]
       else [])
  }

  /** The trace disable_holding_lock leaves for a registered session. */
  function DisableTrace(s: Session, rundown: bool, thread: bool, checkpoints: seq<ExecutionCheckpoint>): seq<Effect> {
    (if RequestedSampling(s.options) then [SamplingDisabled] else [])
    + [ProcessInfoLogged, TracingConfigured(s.id, false), SessionDisabled(s.id)]
    + (if rundown then RundownTrace(s.id, thread, checkpoints) else [])
    + [WritesSuspended(s.id, false), BuffersFlushed(s.id), SequencePointWritten(s.id), SessionReleased(s.id)]
  }

  /** The callbacks disable_holding_lock queues for a registered session. */
  function DisableCallbacks(id: SessionId, rundown: bool, thread: bool, config: ConfigCallbacks): seq<ProviderCallbackData> {
    config(id, false) + (if rundown && thread then config(id, true) + config(id, false) else [])
  }

  /** Whether disabling handle `id` over these slots runs the session's rundown. */
  ghost function RundownRuns(slots: Slots, id: SessionId, canStartThreads: bool): bool {
    InRegistry(slots, id) && slots[SlotOf(slots, id)].value.options.rundownKeyword != 0 && canStartThreads
  }

  /** The slots once handle `id` is disabled: its slot emptied, if it has one. */
  ghost function SlotsAfterDisable(slots: Slots, id: SessionId): Slots {
    if InRegistry(slots, id) then slots[SlotOf(slots, id) := None] else slots
  }

  /** The trace of disabling handle `id` under the lock: none for an unknown handle. */
  ghost function DisableTraceFor(slots: Slots, id: SessionId, canStartThreads: bool, thread: bool,
                                 checkpoints: seq<ExecutionCheckpoint>): seq<Effect> {
    if InRegistry(slots, id)
    then DisableTrace(slots[SlotOf(slots, id)].value, RundownRuns(slots, id, canStartThreads), thread, checkpoints)
    else []
  }

  /** The callbacks queued by disabling handle `id` under the lock: none for an unknown handle. */
  ghost function DisableCallbacksFor(slots: Slots, id: SessionId, canStartThreads: bool, thread: bool,
                                     config: ConfigCallbacks): seq<ProviderCallbackData> {
    if InRegistry(slots, id) then DisableCallbacks(id, RundownRuns(slots, id, canStartThreads), thread, config) else []
  }

  /** ep_shutdown disables the sessions that are not listeners. */
  predicate ShutsDown(slot: Option<Session>) {
    slot.Some? && slot.value.options.sessionType != Listener
  }

  /** What ep_shutdown's disable of one slot logs: the disable's trace and its callbacks, or nothing. */
  function SlotShutdownTrace(slot: Option<Session>, canStartThreads: bool, thread: bool,
                             checkpoints: seq<ExecutionCheckpoint>, config: ConfigCallbacks): seq<Effect> {
    if ShutsDown(slot) then
      var rundown := slot.value.options.rundownKeyword != 0 && canStartThreads;
      DisableTrace(slot.value, rundown, thread, checkpoints)
      + Invocations(DisableCallbacks(slot.value.id, rundown, thread, config))
    else []
  }

  /** Disabling a registered non-listener logs what SlotShutdownTrace says for its slot. */
  lemma SlotShutdownIsDisable(slots: Slots, i: nat, canStartThreads: bool, thread: bool,
                              checkpoints: seq<ExecutionCheckpoint>, config: ConfigCallbacks)
    requires i < |slots| && ShutsDown(slots[i])
    requires InRegistry(slots, slots[i].value.id) && SlotOf(slots, slots[i].value.id) == i
    ensures SlotShutdownTrace(slots[i], canStartThreads, thread, checkpoints, config)
      == DisableTraceFor(slots, slots[i].value.id, canStartThreads, thread, checkpoints)
         + Invocations(DisableCallbacksFor(slots, slots[i].value.id, canStartThreads, thread, config))
  {
  }

  /** What disabling the non-listeners of the first n slots logs, slot by slot. */
  ghost function ShutdownTrace(slots: Slots, n: nat, canStartThreads: bool, thread: bool,
                               checkpoints: seq<ExecutionCheckpoint>, config: ConfigCallbacks): seq<Effect>
    requires n <= |slots|
  {
    if n == 0 then []
    else ShutdownTrace(slots, n - 1, canStartThreads, thread, checkpoints, config)
         + SlotShutdownTrace(slots[n - 1], canStartThreads, thread, checkpoints, config)
  }

  /** The slots once every handle of `ids` has been disabled, in request order. */
  ghost function DisabledAll(slots: Slots, ids: seq<SessionId>): Slots
    decreases |ids|
  {
    if ids == [] then slots
    else SlotsAfterDisable(DisabledAll(slots, ids[..|ids| - 1]), ids[|ids| - 1])
  }

  /**
   * The trace of disabling every handle of `ids` in request order through
   * disable_helper: each disable's effects, then the invocation of the
   * callbacks it queued.
   */
  ghost function DisabledAllTrace(slots: Slots, ids: seq<SessionId>, canStartThreads: bool, thread: bool,
                                  checkpoints: seq<ExecutionCheckpoint>, config: ConfigCallbacks): seq<Effect>
    decreases |ids|
  {
    if ids == [] then []
    else
      var before := DisabledAll(slots, ids[..|ids| - 1]);
      var id := ids[|ids| - 1];
      DisabledAllTrace(slots, ids[..|ids| - 1], canStartThreads, thread, checkpoints, config)
      + DisableTraceFor(before, id, canStartThreads, thread, checkpoints)
      + Invocations(DisableCallbacksFor(before, id, canStartThreads, thread, config))
  }

  /** Disabling one more handle extends the fold and its trace by that one disable. */
  lemma DisabledAllSnoc(slots: Slots, ids: seq<SessionId>, id: SessionId, canStartThreads: bool, thread: bool,
                        checkpoints: seq<ExecutionCheckpoint>, config: ConfigCallbacks)
    ensures DisabledAll(slots, ids + [id]) == SlotsAfterDisable(DisabledAll(slots, ids), id)
    ensures DisabledAllTrace(slots, ids + [id], canStartThreads, thread, checkpoints, config)
            == DisabledAllTrace(slots, ids, canStartThreads, thread, checkpoints, config)
               + DisableTraceFor(DisabledAll(slots, ids), id, canStartThreads, thread, checkpoints)
               + Invocations(DisableCallbacksFor(DisabledAll(slots, ids), id, canStartThreads, thread, config))
  {
    assert (ids + [id])[..|ids|] == ids;
  }

  /**
   * With no handle stored twice, disabling the handles of `ids` empties
   * exactly the slots whose session has one of those handles, and leaves
   * every other slot as it was.
   */
  lemma {:induction false} DisabledAllEmptiesExactly(slots: Slots, ids: seq<SessionId>)
    requires UniqueIds(slots)
    ensures |DisabledAll(slots, ids)| == |slots| && UniqueIds(DisabledAll(slots, ids))
    ensures forall i :: 0 <= i < |slots| ==>
      DisabledAll(slots, ids)[i] == if slots[i].Some? && slots[i].value.id in ids then None else slots[i]
    decreases |ids|
  {
    if ids != [] {
      var prefix := ids[..|ids| - 1];
      var id := ids[|ids| - 1];
      assert ids == prefix + [id];
      DisabledAllEmptiesExactly(slots, prefix);
      var before := DisabledAll(slots, prefix);
      forall i | 0 <= i < |slots|
        ensures DisabledAll(slots, ids)[i] == if slots[i].Some? && slots[i].value.id in ids then None else slots[i]
      {
        if slots[i].Some? && slots[i].value.id == id && id !in prefix {
          assert before[i] == slots[i];
          assert InRegistry(before, id);
          assert SlotOf(before, id) == i;
        }
      }
    }
  }

  /** No handle of `ids` is registered once all of them are disabled. */
  lemma DisabledAllUnregisters(slots: Slots, ids: seq<SessionId>)
    requires UniqueIds(slots)
    ensures |DisabledAll(slots, ids)| == |slots|
    ensures forall i :: 0 <= i < |slots| ==>
      DisabledAll(slots, ids)[i] == if slots[i].Some? && slots[i].value.id in ids then None else slots[i]
    ensures forall j :: 0 <= j < |ids| ==> !InRegistry(DisabledAll(slots, ids), ids[j])
  {
    DisabledAllEmptiesExactly(slots, ids);
  }

  /** Appending two pieces to a log that already ends with `b`. */
  lemma AppendAssoc(a: seq<Effect>, b: seq<Effect>, c: seq<Effect>)
    ensures a + b + c == a + (b + c)
  {
  }

  lemma AppendTwice(a: seq<Effect>, b: seq<Effect>, c: seq<Effect>, d: seq<Effect>)
    ensures a + b + c + d == a + (b + c + d)
  {
  }

  /** The streams ep_finish_init starts: one per deferred handle still registered, in queue order. */
  function StartedStreams(ids: seq<SessionId>, slots: Slots): seq<Effect> {
    if ids == [] then []
    else
      var last := ids[|ids| - 1];
      StartedStreams(ids[..|ids| - 1], slots) + (if InRegistry(slots, last) then [StreamingStarted(last)] else [])
  }

  /**
   * EventPipeThread: the per-thread record the engine consults while
   * writing. `writeInProgress` is the slot being written, UINT32_MAX when
   * none; `rundownSession` is set while the thread runs a session's rundown.
   */
  class EventPipeThread {
    var rundownSession: Option<SessionId>
    var writeInProgress: nat
    var activityId: Option<ActivityId>

    constructor (activity: Option<ActivityId>)
      ensures rundownSession == None && writeInProgress == UINT32_MAX && activityId == activity
    {
      rundownSession := None;
      writeInProgress := UINT32_MAX;
      activityId := activity;
    }
  }

  /** The effects the engine has caused, in order; kept apart from the engine's own state. */
  class EffectLog {
    var effects: seq<Effect>

    constructor ()
      ensures effects == []
    {
      effects := [];
    }
  }

  class EventPipeEngine {
    /** _ep_state */
    var state: EngineState
    /** _ep_number_of_sessions */
    var numberOfSessions: nat
    /** _ep_sessions */
    const sessions: array<Option<Session>>
    /** _ep_allow_write, as the set of slots whose bit is set */
    var allowWrite: set<nat>
    /** _ep_can_start_threads */
    var canStartThreads: bool
    /** _ep_deferred_enable_session_ids */
    var deferredEnable: seq<SessionId>
    /** _ep_deferred_disable_session_ids */
    var deferredDisable: seq<SessionId>
    /** _ep_rundown_execution_checkpoints */
    var checkpoints: seq<ExecutionCheckpoint>
    /** The handle the next allocated session receives; handles are never reused. */
    var nextId: SessionId
    /** The slot of every handle ever handed out (what the handle's session records as its index). */
    var sessionIndex: map<SessionId, nat>
    /** The external effects caused so far, in order. */
    const log: EffectLog

    ghost predicate Valid()
      reads this, sessions
    {
      sessions.Length == MaxSessions
      && RegistryInvariant(sessions[..], allowWrite, numberOfSessions)
      && HandlesMatch(sessions[..], sessionIndex, nextId)
      && (state == NotInitialized ==> numberOfSessions == 0)
      && (forall j :: 0 <= j < |deferredEnable| ==> deferredEnable[j] != 0)
    }

    /** The engine before ep_init: no sessions, nothing published, threads may not start. */
    constructor ()
      ensures Valid() && fresh(sessions)
      ensures state == NotInitialized && numberOfSessions == 0 && allowWrite == {}
      ensures forall i :: 0 <= i < MaxSessions ==> sessions[i].None?
      ensures !canStartThreads && deferredEnable == [] && deferredDisable == [] && checkpoints == []
      ensures fresh(log) && log.effects == []
    {
      state := NotInitialized;
      numberOfSessions := 0;
      sessions := new Option<Session>[MaxSessions](_ => None);
      allowWrite := {};
      canStartThreads := false;
      deferredEnable := [];
      deferredDisable := [];
      checkpoints := [];
      nextId := 1;
      sessionIndex := map[];
      log := new EffectLog();
      new;
      EmptySlots(sessions[..]);
    }

    /** ep_enabled / enabled: initialized and at least one session. */
    predicate Enabled()
      reads this
    {
      state != NotInitialized && numberOfSessions > 0
    }

    /** The engine is enabled exactly when it is initialized and some slot holds a session. */
    lemma EnabledIffSessionRegistered()
      requires Valid()
      ensures Enabled() <==> AtLeastInitialized(state) && exists i :: 0 <= i < MaxSessions && sessions[i].Some?
    {
      OccupiedPositive(sessions[..]);
      if exists i :: 0 <= i < MaxSessions && sessions[i].Some? {
        var i :| 0 <= i < MaxSessions && sessions[i].Some?;
        assert sessions[..][i].Some?;
      }
    }

    /** generate_session_index: the lowest free slot, or MaxSessions when every slot is taken. */
    method GenerateSessionIndex() returns (k: nat)
      requires sessions.Length == MaxSessions
      ensures k == FirstFree(sessions[..])
      ensures k <= MaxSessions
      ensures k < MaxSessions ==> sessions[k].None? && forall j :: 0 <= j < k ==> sessions[j].Some?
    {
      var i := 0;
      while i < MaxSessions
        invariant 0 <= i <= MaxSessions
        invariant forall j :: 0 <= j < i ==> sessions[j].Some?
      {
        if sessions[i].None? {
          FirstFreeIs(sessions[..], i);
          return i;
        }
        i := i + 1;
      }
      FirstFreeIs(sessions[..], MaxSessions);
      return MaxSessions;
    }

    /** is_session_id_in_collection: whether some slot holds the session with handle id. */
    method IsSessionIdInCollection(id: SessionId) returns (found: bool)
      requires id != 0
      requires sessions.Length == MaxSessions
      ensures found <==> InRegistry(sessions[..], id)
    {
      var i := 0;
      while i < MaxSessions
        invariant 0 <= i <= MaxSessions
        invariant forall j :: 0 <= j < i ==> !(sessions[j].Some? && sessions[j].value.id == id)
      {
        if sessions[i].Some? && sessions[i].value.id == id {
          assert sessions[..][i] == sessions[i];
          return true;
        }
        i := i + 1;
      }
      return false;
    }

    /** Every field but the slots. */
    ghost function Control(): (EngineState, nat, set<nat>, bool, seq<SessionId>, seq<SessionId>,
                               seq<ExecutionCheckpoint>, SessionId, map<SessionId, nat>)
      reads this
    {
      (state, numberOfSessions, allowWrite, canStartThreads, deferredEnable, deferredDisable,
       checkpoints, nextId, sessionIndex)
    }

    /**
     * config_enable_disable, as far as the engine sees it: the provider
     * callbacks that switching tracing for the session produces are queued,
     * in order. The caller records the switch itself.
     */
    static method QueueConfigCallbacks(id: SessionId, enable: bool, queue: ProviderCallbackDataQueue, config: ConfigCallbacks)
      modifies queue
      ensures queue.contents == old(queue.contents) + config(id, enable)
    {
      QueueRecords(config(id, enable), queue);
    }

    /** Pushes each record onto the back of the queue, in order. */
    static method QueueRecords(records: seq<ProviderCallbackData>, queue: ProviderCallbackDataQueue)
      modifies queue
      ensures queue.contents == old(queue.contents) + records
    {
      var i := 0;
      while i < |records|
        invariant 0 <= i <= |records|
        invariant queue.contents == old(queue.contents) + records[..i]
      {
        var _, _ := queue.Enqueue(records[i]);
        assert records[..i + 1] == records[..i] + [records[i]];
        i := i + 1;
      }
      assert records[..i] == records;
    }

    /**
     * The loop that follows every lock section of ep_enable_3 and
     * disable_helper: dequeue each queued callback and invoke it, front
     * first, until the queue is empty. Returns the invocations made.
     */
    static method DrainCallbacks(queue: ProviderCallbackDataQueue) returns (invoked: seq<Effect>)
      modifies queue
      ensures queue.contents == []
      ensures invoked == Invocations(old(queue.contents))
    {
      ghost var drained: seq<ProviderCallbackData> := [];
      invoked := [];
      while true
        invariant old(queue.contents) == drained + queue.contents
        invariant invoked == Invocations(drained)
        decreases |queue.contents|
      {
        var ok, data := queue.TryDequeue();
        if !ok {
          break;
        }
        InvocationsAppend(drained, data);
        invoked := invoked + [CallbackInvoked(data)];
        drained := drained + [data];
      }
      assert drained == old(queue.contents);
    }

    /**
     * The publishing half of enable: store the session in its slot, set the
     * slot's allow-write bit, count it, and hand out its handle.
     */
    method Register(k: nat, s: Session)
      requires Valid() && state != NotInitialized
      requires k < MaxSessions && sessions[k].None? && s.index == k && s.id == nextId
      modifies this, sessions
      ensures Valid()
      ensures sessions[..] == old(sessions[..])[k := Some(s)]
      ensures allowWrite == old(allowWrite) + {k} && numberOfSessions == old(numberOfSessions) + 1
      ensures sessionIndex == old(sessionIndex)[s.id := k] && nextId == old(nextId) + 1
      ensures state == old(state) && canStartThreads == old(canStartThreads) && checkpoints == old(checkpoints)
      ensures deferredEnable == old(deferredEnable) && deferredDisable == old(deferredDisable)
    {
      RegisterKeepsInvariant(sessions[..], allowWrite, numberOfSessions, k, s);
      HandlesMatchFill(sessions[..], sessionIndex, nextId, k, s);
      sessions[k] := Some(s);
      allowWrite := allowWrite + {k};
      numberOfSessions := numberOfSessions + 1;
      sessionIndex := sessionIndex[s.id := k];
      nextId := nextId + 1;
    }

    /**
     * enable: allocate a session in the lowest free slot, publish it (slot,
     * then allow-write bit, then count) and switch its providers on. Returns
     * the new handle, or 0 when the engine is not initialized, every slot is
     * taken, the count is at its maximum or the event source refuses the
     * session. `samplerCallbacks` are the provider callbacks the sample
     * profiler's set-up queues (none once it is registered), and
     * `eventSourceEnables` is the result of ep_event_source_enable for the new
     * session.
     */
    method Enable(options: SessionOptions, samplerCallbacks: seq<ProviderCallbackData>, eventSourceEnables: bool,
                  queue: ProviderCallbackDataQueue, config: ConfigCallbacks) returns (id: SessionId)
      requires Valid()
      requires options.format < SerializationFormatCount
      requires UsesBufferManager(options.sessionType) ==> options.circularBufferSizeInMB > 0
      requires options.providers.Some? && |options.providers.value| > 0
      modifies this, sessions, log, queue
      ensures Valid()
      ensures state == old(state) && canStartThreads == old(canStartThreads) && checkpoints == old(checkpoints)
      ensures deferredEnable == old(deferredEnable) && deferredDisable == old(deferredDisable)
      ensures id != 0 <==>
        old(state) == Initialized && FirstFree(old(sessions[..])) < MaxSessions && old(numberOfSessions) < MaxSessions
        && eventSourceEnables
      ensures id == 0 ==>
        sessions[..] == old(sessions[..]) && allowWrite == old(allowWrite) && numberOfSessions == old(numberOfSessions)
        && sessionIndex == old(sessionIndex)
      ensures id == 0 ==>
        queue.contents == old(queue.contents)
          + (if old(state) == Initialized && FirstFree(old(sessions[..])) < MaxSessions
                && old(numberOfSessions) < MaxSessions then samplerCallbacks else [])
      ensures old(state) != Initialized || FirstFree(old(sessions[..])) == MaxSessions ==>
        log.effects == old(log.effects) && nextId == old(nextId)
      ensures id == 0 && old(state) == Initialized && FirstFree(old(sessions[..])) < MaxSessions
              && old(numberOfSessions) >= MaxSessions ==>
        log.effects == old(log.effects) + [SessionReleased(old(nextId))] && nextId == old(nextId) + 1
      ensures id == 0 && old(state) == Initialized && FirstFree(old(sessions[..])) < MaxSessions
              && old(numberOfSessions) < MaxSessions ==>
        log.effects == old(log.effects) + [SamplerInitialized, SessionReleased(old(nextId))] && nextId == old(nextId) + 1
      ensures id != 0 ==>
        var k := FirstFree(old(sessions[..]));
        id == old(nextId) && nextId == id + 1
        && sessions[..] == old(sessions[..])[k := Some(Session(id, k, options))]
        && allowWrite == old(allowWrite) + {k}
        && numberOfSessions == old(numberOfSessions) + 1
        && sessionIndex == old(sessionIndex)[id := k]
        && log.effects == old(log.effects) + [SamplerInitialized, EventSourceEnabled(id), TracingConfigured(id, true)]
                    + (if RequestedSampling(options) then [SamplingEnabled] else [])
        && queue.contents == old(queue.contents) + samplerCallbacks + config(id, true)
    {
      if state != Initialized {
        return 0;
      }
      var k := GenerateSessionIndex();
      if k >= MaxSessions {
        return 0;
      }
      if numberOfSessions >= MaxSessions {
        // The freshly allocated session is released; its handle is never returned.
        log.effects := log.effects + [SessionReleased(nextId)];
        nextId := nextId + 1;
        return 0;
      }
      // The sampler is set up before the event source is asked, and may queue
      // callbacks of its own.
      QueueRecords(samplerCallbacks, queue);
      if !eventSourceEnables {
        // The refused session is released and its handle is never returned.
        log.effects := log.effects + [SamplerInitialized, SessionReleased(nextId)];
        nextId := nextId + 1;
        return 0;
      }
      id := nextId;
      Register(k, Session(id, k, options));
      QueueConfigCallbacks(id, true, queue, config);
      // The sampler and the event source come up before the session is
      // published; tracing is switched on after it, then sampling if asked for.
      var sampling := if RequestedSampling(options) then [SamplingEnabled] else [];
      log.effects := log.effects + [SamplerInitialized, EventSourceEnabled(id), TracingConfigured(id, true)] + sampling;
    }

    /** Under the invariant a free slot means the count is below the maximum, so enable fails only for state or room. */
    lemma RoomMeansCountBelowMax()
      requires Valid() && FirstFree(sessions[..]) < MaxSessions
      ensures numberOfSessions < MaxSessions
    {
      OccupiedBelowLength(sessions[..], FirstFree(sessions[..]));
    }

    /**
     * ep_enable_3: reject invalid options with handle 0 and no other
     * change; otherwise run enable under the lock and then invoke the queued
     * provider callbacks in order.
     */
    method Enable3(options: SessionOptions, samplerCallbacks: seq<ProviderCallbackData>, eventSourceEnables: bool,
                   config: ConfigCallbacks) returns (id: SessionId)
      requires Valid()
      modifies this, sessions, log
      ensures Valid()
      ensures state == old(state) && canStartThreads == old(canStartThreads)
      ensures deferredEnable == old(deferredEnable) && deferredDisable == old(deferredDisable)
      ensures checkpoints == old(checkpoints)
      ensures !CheckOptionsValid(options) ==>
        id == 0 && Control() == old(Control()) && sessions[..] == old(sessions[..]) && log.effects == old(log.effects)
      ensures id != 0 <==>
        CheckOptionsValid(options) && old(state) == Initialized && FirstFree(old(sessions[..])) < MaxSessions
        && old(numberOfSessions) < MaxSessions && eventSourceEnables
      ensures id == 0 ==>
        sessions[..] == old(sessions[..]) && allowWrite == old(allowWrite) && numberOfSessions == old(numberOfSessions)
      ensures id != 0 ==>
        var k := FirstFree(old(sessions[..]));
        id == old(nextId)
        && sessions[..] == old(sessions[..])[k := Some(Session(id, k, options))]
        && allowWrite == old(allowWrite) + {k}
        && numberOfSessions == old(numberOfSessions) + 1
        && log.effects == old(log.effects) + [SamplerInitialized, EventSourceEnabled(id), TracingConfigured(id, true)]
                    + (if RequestedSampling(options) then [SamplingEnabled] else [])
                    + Invocations(samplerCallbacks + config(id, true))
    {
      if !CheckOptionsValid(options) {
        return 0;
      }
      var queue := new ProviderCallbackDataQueue();
      id := Enable(options, samplerCallbacks, eventSourceEnables, queue, config);
      ghost var queued := queue.contents;
      assert id != 0 ==> queued == samplerCallbacks + config(id, true);
      var invoked := DrainCallbacks(queue);
      assert invoked == Invocations(queued);
      log.effects := log.effects + invoked;
    }

    /**
     * ep_enable_2 (through ep_enable): parse the provider configuration
     * text, fail with handle 0 when it is rejected, and otherwise enable a
     * session with the parsed providers, stack walks requested.
     */
    method EnableFromConfig(outputPath: Option<string>, circularBufferSizeInMB: uint32, providersConfig: Option<string>,
                            sessionType: SessionType, format: nat, rundownKeyword: uint64, hasStream: bool,
                            samplerCallbacks: seq<ProviderCallbackData>, eventSourceEnables: bool, config: ConfigCallbacks)
      returns (id: SessionId)
      requires Valid()
      modifies this, sessions, log
      ensures Valid()
      ensures state == old(state) && canStartThreads == old(canStartThreads)
      ensures deferredEnable == old(deferredEnable) && deferredDisable == old(deferredDisable)
      ensures checkpoints == old(checkpoints)
      ensures EpConfig.ProvidersFromConfig(providersConfig).None? ==>
        id == 0 && Control() == old(Control()) && sessions[..] == old(sessions[..]) && log.effects == old(log.effects)
      ensures id == 0 ==>
        sessions[..] == old(sessions[..]) && allowWrite == old(allowWrite) && numberOfSessions == old(numberOfSessions)
      ensures EpConfig.ProvidersFromConfig(providersConfig).Some? ==>
        var options := EnableOptions(outputPath, circularBufferSizeInMB, EpConfig.ProvidersFromConfig(providersConfig).value,
                                     sessionType, format, rundownKeyword, hasStream);
        (id != 0 <==>
           CheckOptionsValid(options) && old(state) == Initialized && FirstFree(old(sessions[..])) < MaxSessions
           && old(numberOfSessions) < MaxSessions && eventSourceEnables)
        && (id != 0 ==>
              var k := FirstFree(old(sessions[..]));
              id == old(nextId)
              && sessions[..] == old(sessions[..])[k := Some(Session(id, k, options))]
              && allowWrite == old(allowWrite) + {k}
              && numberOfSessions == old(numberOfSessions) + 1
              && log.effects == old(log.effects) + [SamplerInitialized, EventSourceEnabled(id), TracingConfigured(id, true)]
                          + (if RequestedSampling(options) then [SamplingEnabled] else [])
                          + Invocations(samplerCallbacks + config(id, true)))
    {
      var providers := EpConfig.ParseProviderConfig(providersConfig);
      if providers.None? {
        return 0;
      }
      var options := EnableOptions(outputPath, circularBufferSizeInMB, providers.value, sessionType, format,
                                   rundownKeyword, hasStream);
      id := Enable3(options, samplerCallbacks, eventSourceEnables, config);
    }

    /**
     * The rundown step of disable_holding_lock: enable the rundown provider
     * and, when the calling thread's record exists, mark the thread as the
     * session's rundown thread, switch the session's providers on, execute the
     * rundown over the recorded checkpoints, switch them off again and clear
     * the mark. Returns the effects caused.
     */
    method Rundown(s: Session, queue: ProviderCallbackDataQueue, t: EventPipeThread?, config: ConfigCallbacks)
      returns (effects: seq<Effect>)
      requires Valid() && s.index < MaxSessions && sessions[s.index] == Some(s)
      modifies queue, t
      ensures effects == RundownTrace(s.id, t != null, checkpoints)
      ensures queue.contents == old(queue.contents) + (if t != null then config(s.id, true) + config(s.id, false) else [])
      ensures t != null ==>
        t.rundownSession == None && t.writeInProgress == old(t.writeInProgress) && t.activityId == old(t.activityId)
    {
      effects := [RundownEnabled(s.id)];
      if t != null {
        t.rundownSession := Some(s.id);
        QueueConfigCallbacks(s.id, true, queue, config);
        // The session is still reachable by writers while its rundown runs.
        var bit, slot := s.index in allowWrite, sessions[s.index];
        var published := bit || slot.Some?;
        effects := effects + [TracingConfigured(s.id, true), RundownExecuted(s.id, checkpoints, t.rundownSession, published)];
        QueueConfigCallbacks(s.id, false, queue, config);
        effects := effects + [TracingConfigured(s.id, false)];
        t.rundownSession := None;
      }
    }

    /**
     * The first half of disable_holding_lock, while the session is still
     * published: stop sampling if it asked for it, log the process
     * information, switch its providers off, disable it, and run its rundown
     * when a rundown keyword is set and threads may start. Returns the
     * effects caused.
     */
    method Quiesce(s: Session, queue: ProviderCallbackDataQueue, t: EventPipeThread?, config: ConfigCallbacks)
      returns (effects: seq<Effect>)
      requires Valid() && s.index < MaxSessions && sessions[s.index] == Some(s)
      modifies queue, t
      ensures
        var rundown := s.options.rundownKeyword != 0 && canStartThreads;
        effects == (if RequestedSampling(s.options) then [SamplingDisabled] else [])
                   + [ProcessInfoLogged, TracingConfigured(s.id, false), SessionDisabled(s.id)]
                   + (if rundown then RundownTrace(s.id, t != null, checkpoints) else [])
        && queue.contents == old(queue.contents) + DisableCallbacks(s.id, rundown, t != null, config)
        && (t != null ==> t.rundownSession == if rundown then None else old(t.rundownSession))
      ensures t != null ==> t.writeInProgress == old(t.writeInProgress) && t.activityId == old(t.activityId)
    {
      effects := (if RequestedSampling(s.options) then [SamplingDisabled] else [])
                 + [ProcessInfoLogged, TracingConfigured(s.id, false), SessionDisabled(s.id)];
      QueueConfigCallbacks(s.id, false, queue, config);
      if s.options.rundownKeyword != 0 && canStartThreads {
        var rundown := Rundown(s, queue, t, config);
        effects := effects + rundown;
      }
    }

    /**
     * The unpublishing half of disable_holding_lock: clear the slot's
     * allow-write bit, empty the slot, and uncount the session. Reports
     * whether a writer could still reach the session once the bit and the
     * slot are cleared, the moment its writes are suspended.
     */
    method Unregister(k: nat) returns (published: bool)
      requires Valid() && k < MaxSessions && sessions[k].Some?
      modifies this, sessions
      ensures Valid()
      ensures !published
      ensures sessions[..] == old(sessions[..])[k := None]
      ensures allowWrite == old(allowWrite) - {k} && numberOfSessions == old(numberOfSessions) - 1
      ensures sessionIndex == old(sessionIndex) && nextId == old(nextId)
      ensures state == old(state) && canStartThreads == old(canStartThreads) && checkpoints == old(checkpoints)
      ensures deferredEnable == old(deferredEnable) && deferredDisable == old(deferredDisable)
    {
      UnregisterKeepsInvariant(sessions[..], allowWrite, numberOfSessions, k);
      HandlesMatchClear(sessions[..], sessionIndex, nextId, k);
      allowWrite := allowWrite - {k};
      sessions[k] := None;
      var bit, slot := k in allowWrite, sessions[k];
      published := bit || slot.Some?;
      // ep.c decrements the count after the suspend and the flush. Those
      // touch no field of the engine, so in this sequential model the order
      // cannot be observed.
      numberOfSessions := numberOfSessions - 1;
    }

    /**
     * disable_holding_lock: when the handle names a registered session, stop
     * sampling if it asked for it, switch its providers off, disable it, run
     * its rundown on the calling thread when a rundown keyword is set and
     * threads may start, then unpublish it (allow-write bit first, then its
     * slot) before suspending writes, flushing, uncounting it, writing the
     * final sequence point and releasing it. `t` is the calling thread's
     * record, null when it cannot be obtained. An unknown handle changes
     * nothing.
     */
    method DisableHoldingLock(id: SessionId, queue: ProviderCallbackDataQueue, t: EventPipeThread?, config: ConfigCallbacks)
      requires Valid() && id != 0 && numberOfSessions > 0
      modifies this, sessions, log, queue, t
      ensures Valid()
      ensures state == old(state) && canStartThreads == old(canStartThreads) && checkpoints == old(checkpoints)
      ensures deferredEnable == old(deferredEnable) && deferredDisable == old(deferredDisable)
      ensures nextId == old(nextId) && sessionIndex == old(sessionIndex)
      ensures t != null ==> t.writeInProgress == old(t.writeInProgress) && t.activityId == old(t.activityId)
      ensures !InRegistry(sessions[..], id)
      ensures sessions[..] == SlotsAfterDisable(old(sessions[..]), id)
      ensures log.effects == old(log.effects) + DisableTraceFor(old(sessions[..]), id, canStartThreads, t != null, checkpoints)
      ensures queue.contents == old(queue.contents) + DisableCallbacksFor(old(sessions[..]), id, canStartThreads, t != null, config)
      ensures t != null ==>
        t.rundownSession == if RundownRuns(old(sessions[..]), id, canStartThreads) then None else old(t.rundownSession)
    {
      var found := IsSessionIdInCollection(id);
      if !found {
        return;
      }
      RegisteredAtRecordedSlot(sessions[..], sessionIndex, nextId, id);
      HandlesAreUnique(sessions[..], sessionIndex, nextId);
      var k := sessionIndex[id];
      assert k == SlotOf(sessions[..], id);
      ClearedNotRegistered(sessions[..], sessionIndex, nextId, k);
      DisableSession(k, queue, t, config);
    }

    /** The body of disable_holding_lock once the session has been found in slot k. */
    method DisableSession(k: nat, queue: ProviderCallbackDataQueue, t: EventPipeThread?, config: ConfigCallbacks)
      requires Valid() && k < MaxSessions && sessions[k].Some?
      modifies this, sessions, log, queue, t
      ensures Valid()
      ensures state == old(state) && canStartThreads == old(canStartThreads) && checkpoints == old(checkpoints)
      ensures deferredEnable == old(deferredEnable) && deferredDisable == old(deferredDisable)
      ensures nextId == old(nextId) && sessionIndex == old(sessionIndex)
      ensures t != null ==> t.writeInProgress == old(t.writeInProgress) && t.activityId == old(t.activityId)
      ensures
        var s := old(sessions[k]).value;
        var rundown := s.options.rundownKeyword != 0 && canStartThreads;
        sessions[..] == old(sessions[..])[k := None]
        && allowWrite == old(allowWrite) - {k}
        && numberOfSessions == old(numberOfSessions) - 1
        && log.effects == old(log.effects) + DisableTrace(s, rundown, t != null, checkpoints)
        && queue.contents == old(queue.contents) + DisableCallbacks(s.id, rundown, t != null, config)
        && (t != null ==> t.rundownSession == if rundown then None else old(t.rundownSession))
    {
      var s := sessions[k].value;
      var quiesced := Quiesce(s, queue, t, config);
      var published := Unregister(k);
      var id := s.id;
      log.effects := log.effects + quiesced
                     + [WritesSuspended(id, published), BuffersFlushed(id), SequencePointWritten(id), SessionReleased(id)];
    }

    /**
     * disable_helper: handle 0 is ignored; otherwise, under the lock, the
     * session is disabled when any session is registered, and the queued
     * provider callbacks are then invoked in order.
     */
    method DisableHelper(id: SessionId, t: EventPipeThread?, config: ConfigCallbacks)
      requires Valid()
      modifies this, sessions, log, t
      ensures Valid()
      ensures state == old(state) && canStartThreads == old(canStartThreads) && checkpoints == old(checkpoints)
      ensures deferredEnable == old(deferredEnable) && deferredDisable == old(deferredDisable)
      ensures nextId == old(nextId) && sessionIndex == old(sessionIndex)
      ensures t != null ==> t.writeInProgress == old(t.writeInProgress) && t.activityId == old(t.activityId)
      ensures !InRegistry(sessions[..], id)
      ensures sessions[..] == SlotsAfterDisable(old(sessions[..]), id)
      ensures log.effects == old(log.effects) + DisableTraceFor(old(sessions[..]), id, canStartThreads, t != null, checkpoints)
                             + Invocations(DisableCallbacksFor(old(sessions[..]), id, canStartThreads, t != null, config))
      ensures t != null ==>
        t.rundownSession == if RundownRuns(old(sessions[..]), id, canStartThreads) then None else old(t.rundownSession)
    {
      if id == 0 {
        ZeroNeverRegistered(sessions[..], sessionIndex, nextId);
        return;
      }
      ghost var callbacks := DisableCallbacksFor(sessions[..], id, canStartThreads, t != null, config);
      var queue := new ProviderCallbackDataQueue();
      if numberOfSessions > 0 {
        DisableHoldingLock(id, queue, t, config);
      } else {
        OccupiedPositive(sessions[..]);
      }
      ghost var queued := queue.contents;
      assert queued == callbacks;
      var invoked := DrainCallbacks(queue);
      assert invoked == Invocations(queued);
      log.effects := log.effects + invoked;
    }

    /**
     * ep_disable: before ep_finish_init has let threads start, and while no
     * diagnostic port holds the runtime suspended, the request is deferred;
     * otherwise the session is disabled at once.
     */
    method Disable(id: SessionId, anySuspendedPorts: bool, t: EventPipeThread?, config: ConfigCallbacks)
      requires Valid()
      modifies this, sessions, log, t
      ensures Valid()
      ensures state == old(state) && canStartThreads == old(canStartThreads) && checkpoints == old(checkpoints)
      ensures deferredEnable == old(deferredEnable) && nextId == old(nextId) && sessionIndex == old(sessionIndex)
      ensures t != null ==> t.writeInProgress == old(t.writeInProgress) && t.activityId == old(t.activityId)
      ensures !canStartThreads && !anySuspendedPorts ==>
        deferredDisable == old(deferredDisable) + [id] && sessions[..] == old(sessions[..])
        && allowWrite == old(allowWrite) && numberOfSessions == old(numberOfSessions) && log.effects == old(log.effects)
        && (t != null ==> t.rundownSession == old(t.rundownSession))
      ensures canStartThreads || anySuspendedPorts ==>
        deferredDisable == old(deferredDisable) && !InRegistry(sessions[..], id)
        && sessions[..] == SlotsAfterDisable(old(sessions[..]), id)
        && log.effects == old(log.effects) + DisableTraceFor(old(sessions[..]), id, canStartThreads, t != null, checkpoints)
                          + Invocations(DisableCallbacksFor(old(sessions[..]), id, canStartThreads, t != null, config))
    {
      if !canStartThreads && !anySuspendedPorts {
        deferredDisable := deferredDisable + [id];
        return;
      }
      DisableHelper(id, t, config);
    }

    /**
     * ep_start_streaming: an unknown handle is ignored; a registered session
     * starts streaming at once when threads may start, and is otherwise
     * queued for ep_finish_init.
     */
    method StartStreaming(id: SessionId)
      requires Valid() && id != 0
      modifies this, log
      ensures Valid()
      ensures sessions[..] == old(sessions[..])
      ensures state == old(state) && numberOfSessions == old(numberOfSessions) && allowWrite == old(allowWrite)
      ensures canStartThreads == old(canStartThreads) && deferredDisable == old(deferredDisable)
      ensures checkpoints == old(checkpoints) && nextId == old(nextId) && sessionIndex == old(sessionIndex)
      ensures !InRegistry(sessions[..], id) ==> log.effects == old(log.effects) && deferredEnable == old(deferredEnable)
      ensures InRegistry(sessions[..], id) && canStartThreads ==>
        log.effects == old(log.effects) + [StreamingStarted(id)] && deferredEnable == old(deferredEnable)
      ensures InRegistry(sessions[..], id) && !canStartThreads ==>
        log.effects == old(log.effects) && deferredEnable == old(deferredEnable) + [id]
    {
      var found := IsSessionIdInCollection(id);
      if !found {
        return;
      }
      if canStartThreads {
        log.effects := log.effects + [StreamingStarted(id)];
      } else {
        deferredEnable := deferredEnable + [id];
      }
    }

    /**
     * ep_is_session_enabled, as intended: handle 0 is not enabled; any other
     * handle is enabled when the slot its session recorded holds that same
     * session.
     */
    function IsSessionEnabled(id: SessionId): (enabled: bool)
      requires Valid()
      reads this, sessions
      ensures enabled <==> InRegistry(sessions[..], id)
    {
      SessionEnabledIffRegistered(sessions[..], sessionIndex, nextId, id);
      SessionEnabled(sessions[..], sessionIndex, id)
    }

    /**
     * write_event: nothing happens before the engine is initialized or when
     * the event is disabled; a write without an activity from a runtime
     * thread takes the current thread's activity.
     */
    method WriteEvent(eventEnabled: bool, runtimeThread: bool, event: nat, payload: Payload,
                      activity: Option<ActivityId>, related: Option<ActivityId>, t: EventPipeThread?)
      requires Valid()
      modifies log, t
      ensures t != null ==> t.rundownSession == old(t.rundownSession) && t.activityId == old(t.activityId)
      ensures state == NotInitialized || !eventEnabled || t == null ==> log.effects == old(log.effects)
      ensures AtLeastInitialized(state) && eventEnabled && t != null ==>
        var rec := EventRecord(event, if activity.None? && runtimeThread then t.activityId else activity, related);
        if old(t.rundownSession).Some? then
          log.effects == old(log.effects)
            + (if runtimeThread && payload.flatData.Some? then [RundownEventWritten(old(t.rundownSession).value, rec)] else [])
        else
          log.effects == old(log.effects) + Broadcast(sessions[..], MaxSessions, rec)
    {
      if state == NotInitialized || !eventEnabled {
        return;
      }
      var act := activity;
      if act.None? && runtimeThread && t != null {
        act := t.activityId;
      }
      WriteEvent2(runtimeThread, event, payload, act, related, t);
    }

    /**
     * write_event_2: nothing happens before the engine is initialized or
     * without a thread record. A rundown thread writes only to its rundown
     * session, and only a flat payload from a runtime thread. Any other
     * thread visits the 64 slots in order; for each slot whose allow-write
     * bit is set it marks the slot as being written, writes to the session
     * still stored there, and clears the mark.
     */
    method WriteEvent2(runtimeThread: bool, event: nat, payload: Payload,
                       activity: Option<ActivityId>, related: Option<ActivityId>, t: EventPipeThread?)
      requires Valid()
      modifies log, t
      ensures t != null ==> t.rundownSession == old(t.rundownSession) && t.activityId == old(t.activityId)
      ensures state == NotInitialized || t == null ==> log.effects == old(log.effects)
      ensures AtLeastInitialized(state) && t != null && t.rundownSession.Some? ==>
        log.effects == old(log.effects)
          + (if runtimeThread && payload.flatData.Some?
             then [RundownEventWritten(t.rundownSession.value, EventRecord(event, activity, related))] else [])
        && t.writeInProgress == old(t.writeInProgress)
      ensures AtLeastInitialized(state) && t != null && t.rundownSession.None? ==>
        log.effects == old(log.effects) + Fanout(sessions[..], allowWrite, MaxSessions, EventRecord(event, activity, related))
        && log.effects == old(log.effects) + Broadcast(sessions[..], MaxSessions, EventRecord(event, activity, related))
        && t.writeInProgress == if allowWrite == {} then old(t.writeInProgress) else UINT32_MAX
    {
      if state == NotInitialized || t == null {
        return;
      }
      var rec := EventRecord(event, activity, related);
      if t.rundownSession.Some? {
        if runtimeThread && payload.flatData.Some? {
          log.effects := log.effects + [RundownEventWritten(t.rundownSession.value, rec)];
        }
        return;
      }
      var i := 0;
      while i < MaxSessions
        invariant 0 <= i <= MaxSessions
        invariant t.rundownSession == old(t.rundownSession) && t.activityId == old(t.activityId)
        invariant log.effects == old(log.effects) + Fanout(sessions[..], allowWrite, i, rec)
        invariant t.writeInProgress == if exists j :: 0 <= j < i && j in allowWrite then UINT32_MAX else old(t.writeInProgress)
      {
        if i in allowWrite {
          t.writeInProgress := i;
          var session := sessions[i];
          if session.Some? {
            log.effects := log.effects + [EventWritten(session.value.id, i, t.writeInProgress, rec)];
          }
          t.writeInProgress := UINT32_MAX;
        }
        i := i + 1;
      }
      FanoutIsBroadcast(sessions[..], allowWrite, numberOfSessions, MaxSessions, rec);
      if allowWrite != {} {
        var j :| j in allowWrite;
        assert 0 <= j < MaxSessions;
      }
    }

    /** ep_add_rundown_execution_checkpoint: the checkpoint is appended for later rundowns. */
    method AddRundownExecutionCheckpoint(name: Option<string>, timestamp: int64) returns (added: bool)
      requires Valid()
      modifies this
      ensures Valid()
      ensures added
      ensures checkpoints == old(checkpoints) + [ExecutionCheckpoint(name, timestamp)]
      ensures state == old(state) && numberOfSessions == old(numberOfSessions) && allowWrite == old(allowWrite)
      ensures canStartThreads == old(canStartThreads) && deferredEnable == old(deferredEnable)
      ensures deferredDisable == old(deferredDisable) && nextId == old(nextId) && sessionIndex == old(sessionIndex)
    {
      checkpoints := checkpoints + [ExecutionCheckpoint(name, timestamp)];
      added := true;
    }

    /**
     * ep_init: a second call changes nothing; the first empties every slot,
     * starts with empty deferred vectors and checkpoint list, and moves the
     * engine to the initialized state.
     */
    method Init()
      requires Valid()
      modifies this, sessions
      ensures Valid()
      ensures old(state) != NotInitialized ==>
        Control() == old(Control()) && sessions[..] == old(sessions[..])
      ensures old(state) == NotInitialized ==>
        state == Initialized && numberOfSessions == 0 && allowWrite == {}
        && (forall i :: 0 <= i < MaxSessions ==> sessions[i].None?)
        && deferredEnable == [] && deferredDisable == [] && checkpoints == []
        && canStartThreads == old(canStartThreads) && nextId == old(nextId) && sessionIndex == old(sessionIndex)
    {
      if state != NotInitialized {
        return;
      }
      // No session exists before initialization, so the stores change no value.
      OccupiedPositive(sessions[..]);
      forall j | 0 <= j < MaxSessions
        ensures sessions[j].None?
      {
        assert sessions[..][j] == sessions[j];
      }
      var i := 0;
      while i < MaxSessions
        invariant 0 <= i <= MaxSessions
        invariant forall j :: 0 <= j < MaxSessions ==> sessions[j].None?
        invariant Valid()
        modifies sessions
      {
        sessions[i] := None;
        i := i + 1;
      }
      deferredEnable := [];
      deferredDisable := [];
      checkpoints := [];
      state := Initialized;
    }

    /**
     * ep_finish_init: threads may start from now on. When the engine is
     * initialized, every deferred start whose session is still registered
     * starts streaming, in request order, and the queue is cleared; sampling
     * may then start; finally, when the engine is initialized, every
     * deferred disable request is carried out, in request order, and that
     * queue is cleared too.
     */
    method FinishInit(t: EventPipeThread?, config: ConfigCallbacks)
      requires Valid()
      modifies this, sessions, log, t
      ensures Valid()
      ensures canStartThreads
      ensures state == old(state) && checkpoints == old(checkpoints) && nextId == old(nextId) && sessionIndex == old(sessionIndex)
      ensures old(state) != Initialized ==>
        deferredEnable == old(deferredEnable) && deferredDisable == old(deferredDisable)
        && sessions[..] == old(sessions[..]) && log.effects == old(log.effects) + [SamplingMayStart]
      ensures old(state) == Initialized ==>
        deferredEnable == [] && deferredDisable == []
        && sessions[..] == DisabledAll(old(sessions[..]), old(deferredDisable))
        && log.effects == old(log.effects) + StartedStreams(old(deferredEnable), old(sessions[..])) + [SamplingMayStart]
                          + DisabledAllTrace(old(sessions[..]), old(deferredDisable), true, t != null, checkpoints, config)
      ensures old(state) == Initialized ==>
        (forall i :: 0 <= i < MaxSessions ==>
           sessions[i] == if old(sessions[i]).Some? && old(sessions[i]).value.id in old(deferredDisable) then None
                          else old(sessions[i]))
        && forall j :: 0 <= j < |old(deferredDisable)| ==> !InRegistry(sessions[..], old(deferredDisable)[j])
    {
      canStartThreads := true;
      if state == Initialized {
        StartDeferredStreams();
      }
      log.effects := log.effects + [SamplingMayStart];
      if state == Initialized {
        DisableDeferred(t, config);
      }
    }

    /** The deferred-start half of ep_finish_init. */
    method StartDeferredStreams()
      requires Valid()
      modifies this, log
      ensures Valid()
      ensures deferredEnable == []
      ensures log.effects == old(log.effects) + StartedStreams(old(deferredEnable), sessions[..])
      ensures state == old(state) && numberOfSessions == old(numberOfSessions) && allowWrite == old(allowWrite)
      ensures canStartThreads == old(canStartThreads) && deferredDisable == old(deferredDisable)
      ensures checkpoints == old(checkpoints) && nextId == old(nextId) && sessionIndex == old(sessionIndex)
    {
      var j := 0;
      while j < |deferredEnable|
        invariant 0 <= j <= |deferredEnable|
        invariant log.effects == old(log.effects) + StartedStreams(deferredEnable[..j], sessions[..])
        modifies log
      {
        var id := deferredEnable[j];
        var found := IsSessionIdInCollection(id);
        assert deferredEnable[..j + 1][..j] == deferredEnable[..j];
        if found {
          log.effects := log.effects + [StreamingStarted(id)];
        }
        j := j + 1;
      }
      assert deferredEnable[..j] == deferredEnable;
      deferredEnable := [];
    }

    /**
     * The deferred-disable half of ep_finish_init, run once threads may
     * start: disable_helper on every queued handle, in request order.
     */
    method DisableDeferred(t: EventPipeThread?, config: ConfigCallbacks)
      requires Valid()
      modifies this, sessions, log, t
      ensures Valid()
      ensures deferredDisable == []
      ensures state == old(state) && canStartThreads == old(canStartThreads) && deferredEnable == old(deferredEnable)
      ensures checkpoints == old(checkpoints) && nextId == old(nextId) && sessionIndex == old(sessionIndex)
      ensures sessions[..] == DisabledAll(old(sessions[..]), old(deferredDisable))
      ensures log.effects == old(log.effects)
        + DisabledAllTrace(old(sessions[..]), old(deferredDisable), canStartThreads, t != null, checkpoints, config)
      ensures forall i :: 0 <= i < MaxSessions ==>
        sessions[i] == if old(sessions[i]).Some? && old(sessions[i]).value.id in old(deferredDisable) then None
                       else old(sessions[i])
      ensures forall j :: 0 <= j < |old(deferredDisable)| ==> !InRegistry(sessions[..], old(deferredDisable)[j])
    {
      var pending := deferredDisable;
      ghost var original := sessions[..];
      HandlesAreUnique(original, sessionIndex, nextId);
      var j := 0;
      while j < |pending|
        invariant 0 <= j <= |pending|
        invariant Valid() && state == old(state) && canStartThreads == old(canStartThreads)
        invariant deferredEnable == old(deferredEnable) && deferredDisable == pending && checkpoints == old(checkpoints)
        invariant nextId == old(nextId) && sessionIndex == old(sessionIndex)
        invariant sessions[..] == DisabledAll(original, pending[..j])
        invariant log.effects == old(log.effects)
          + DisabledAllTrace(original, pending[..j], canStartThreads, t != null, checkpoints, config)
      {
        DisableQueued(pending[j], pending[..j], original, old(log.effects), t, config);
        assert pending[..j + 1] == pending[..j] + [pending[j]];
        j := j + 1;
      }
      assert pending[..j] == pending;
      deferredDisable := [];
      DisabledAllUnregisters(original, pending);
    }

    /** One pass of the deferred-disable loop: disable_helper on the next queued handle. */
    method DisableQueued(id: SessionId, ghost done: seq<SessionId>, ghost original: Slots, ghost prior: seq<Effect>,
                         t: EventPipeThread?, config: ConfigCallbacks)
      requires Valid() && sessions[..] == DisabledAll(original, done)
      requires log.effects == prior + DisabledAllTrace(original, done, canStartThreads, t != null, checkpoints, config)
      modifies this, sessions, log, t
      ensures Valid() && state == old(state) && canStartThreads == old(canStartThreads) && checkpoints == old(checkpoints)
      ensures deferredEnable == old(deferredEnable) && deferredDisable == old(deferredDisable)
      ensures nextId == old(nextId) && sessionIndex == old(sessionIndex)
      ensures sessions[..] == DisabledAll(original, done + [id])
      ensures log.effects == prior + DisabledAllTrace(original, done + [id], canStartThreads, t != null, checkpoints, config)
    {
      ghost var before := sessions[..];
      ghost var earlier := DisabledAllTrace(original, done, canStartThreads, t != null, checkpoints, config);
      DisableHelper(id, t, config);
      DisabledAllSnoc(original, done, id, canStartThreads, t != null, checkpoints, config);
      AppendTwice(prior, earlier, DisableTraceFor(before, id, canStartThreads, t != null, checkpoints),
                  Invocations(DisableCallbacksFor(before, id, canStartThreads, t != null, config)));
    }

    /**
     * ep_shutdown: only an initialized engine outside process detach shuts
     * down. It moves to the shutting-down state, disables every registered
     * session that is not a listener (through ep_disable, so the request is
     * deferred when threads may not start yet and no port is suspended),
     * and then drops the checkpoints and both deferred queues.
     */
    method Shutdown(processDetach: bool, anySuspendedPorts: bool, t: EventPipeThread?, config: ConfigCallbacks)
      requires Valid()
      modifies this, sessions, log, t
      ensures Valid()
      ensures old(state) != Initialized || processDetach ==>
        Control() == old(Control()) && sessions[..] == old(sessions[..]) && log.effects == old(log.effects)
      ensures old(state) == Initialized && !processDetach ==>
        state == ShuttingDown && checkpoints == [] && deferredEnable == [] && deferredDisable == []
        && canStartThreads == old(canStartThreads)
        && log.effects == old(log.effects)
             + (if canStartThreads || anySuspendedPorts
                then ShutdownTrace(old(sessions[..]), MaxSessions, canStartThreads, t != null, old(checkpoints), config)
                else [])
        && forall i :: 0 <= i < MaxSessions ==>
             sessions[i] == if (canStartThreads || anySuspendedPorts) && ShutsDown(old(sessions[i])) then None
                            else old(sessions[i])
    {
      if state == ShuttingDown || processDetach || state != Initialized {
        return;
      }
      state := ShuttingDown;
      DisableNonListeners(anySuspendedPorts, t, config);
      checkpoints := [];
      deferredEnable := [];
      deferredDisable := [];
    }

    /** The loop of ep_shutdown: ep_disable on every registered session that is not a listener, in slot order. */
    method DisableNonListeners(anySuspendedPorts: bool, t: EventPipeThread?, config: ConfigCallbacks)
      requires Valid()
      modifies this, sessions, log, t
      ensures Valid()
      ensures state == old(state) && canStartThreads == old(canStartThreads) && checkpoints == old(checkpoints)
      ensures log.effects == old(log.effects)
        + (if canStartThreads || anySuspendedPorts
           then ShutdownTrace(old(sessions[..]), MaxSessions, canStartThreads, t != null, checkpoints, config) else [])
      ensures forall i :: 0 <= i < MaxSessions ==>
        sessions[i] == if (canStartThreads || anySuspendedPorts) && ShutsDown(old(sessions[i])) then None
                       else old(sessions[i])
    {
      ghost var original := sessions[..];
      var i := 0;
      while i < MaxSessions
        invariant 0 <= i <= MaxSessions
        invariant Valid() && state == old(state) && canStartThreads == old(canStartThreads)
        invariant checkpoints == old(checkpoints)
        invariant ShutDownBelow(i, anySuspendedPorts, original)
        invariant log.effects == old(log.effects)
          + (if canStartThreads || anySuspendedPorts
             then ShutdownTrace(original, i, canStartThreads, t != null, checkpoints, config) else [])
      {
        ShutDownNext(i, anySuspendedPorts, t, config, original, old(log.effects));
        i := i + 1;
      }
      assert ShutDownBelow(MaxSessions, anySuspendedPorts, original);
      assert forall j :: 0 <= j < MaxSessions ==> original[j] == old(sessions[j]);
    }

    /** Slots below n are as ep_shutdown's loop leaves them; the others are still as in `original`. */
    ghost predicate ShutDownBelow(n: nat, anySuspendedPorts: bool, original: Slots)
      reads this, sessions
    {
      |original| == sessions.Length
      && (forall j :: 0 <= j < n && j < sessions.Length ==>
            sessions[j] == if (canStartThreads || anySuspendedPorts) && ShutsDown(original[j]) then None else original[j])
      && (forall j :: n <= j < sessions.Length ==> sessions[j] == original[j])
    }

    /** One pass of ep_shutdown's loop, at slot i. */
    method ShutDownNext(i: nat, anySuspendedPorts: bool, t: EventPipeThread?, config: ConfigCallbacks,
                        ghost original: Slots, ghost prior: seq<Effect>)
      requires Valid() && i < MaxSessions && ShutDownBelow(i, anySuspendedPorts, original)
      requires log.effects == prior
        + (if canStartThreads || anySuspendedPorts
           then ShutdownTrace(original, i, canStartThreads, t != null, checkpoints, config) else [])
      modifies this, sessions, log, t
      ensures Valid() && ShutDownBelow(i + 1, anySuspendedPorts, original)
      ensures state == old(state) && canStartThreads == old(canStartThreads) && checkpoints == old(checkpoints)
      ensures log.effects == prior
        + (if canStartThreads || anySuspendedPorts
           then ShutdownTrace(original, i + 1, canStartThreads, t != null, checkpoints, config) else [])
    {
      ShutDownSlot(i, anySuspendedPorts, t, config);
      if canStartThreads || anySuspendedPorts {
        AppendAssoc(prior, ShutdownTrace(original, i, canStartThreads, t != null, checkpoints, config),
                    SlotShutdownTrace(original[i], canStartThreads, t != null, checkpoints, config));
      }
    }

    /** One pass of the shutdown loop: disables the session in slot i unless it is a listener. */
    method ShutDownSlot(i: nat, anySuspendedPorts: bool, t: EventPipeThread?, config: ConfigCallbacks)
      requires Valid() && i < MaxSessions
      modifies this, sessions, log, t
      ensures Valid()
      ensures state == old(state) && canStartThreads == old(canStartThreads) && checkpoints == old(checkpoints)
      ensures log.effects == old(log.effects)
        + (if canStartThreads || anySuspendedPorts
           then SlotShutdownTrace(old(sessions[i]), canStartThreads, t != null, checkpoints, config) else [])
      ensures sessions[..] == old(sessions[..])[i :=
        if (canStartThreads || anySuspendedPorts) && ShutsDown(old(sessions[i])) then None else old(sessions[i])]
    {
      if ShutsDown(sessions[i]) {
        ShutDownSession(i, anySuspendedPorts, t, config);
      } else {
        assert log.effects == log.effects + [];
        assert sessions[..] == sessions[..][i := sessions[i]];
      }
    }

    /** The disable ep_shutdown issues for the non-listener in slot i. */
    method ShutDownSession(i: nat, anySuspendedPorts: bool, t: EventPipeThread?, config: ConfigCallbacks)
      requires Valid() && i < MaxSessions && ShutsDown(sessions[i])
      modifies this, sessions, log, t
      ensures Valid()
      ensures state == old(state) && canStartThreads == old(canStartThreads) && checkpoints == old(checkpoints)
      ensures log.effects == old(log.effects)
        + (if canStartThreads || anySuspendedPorts
           then SlotShutdownTrace(old(sessions[i]), canStartThreads, t != null, checkpoints, config) else [])
      ensures sessions[..] == if canStartThreads || anySuspendedPorts then old(sessions[..])[i := None] else old(sessions[..])
    {
      var id := sessions[i].value.id;
      ghost var prior, slots := log.effects, sessions[..];
      ghost var trace := SlotShutdownTrace(sessions[i], canStartThreads, t != null, checkpoints, config);
      RecordedSlot(slots, sessionIndex, nextId, i);
      SlotShutdownIsDisable(slots, i, canStartThreads, t != null, checkpoints, config);
      assert SlotsAfterDisable(slots, id) == slots[i := None];
      Disable(id, anySuspendedPorts, t, config);
      if canStartThreads || anySuspendedPorts {
        ghost var disabled := DisableTraceFor(slots, id, canStartThreads, t != null, checkpoints);
        ghost var invoked := Invocations(DisableCallbacksFor(slots, id, canStartThreads, t != null, config));
        assert log.effects == prior + disabled + invoked;
        AppendAssoc(prior, disabled, invoked);
        assert log.effects == prior + trace;
      }
    }
  }

  /** A slot that is free while all before it are taken is the first free one. */
  lemma {:induction false} FirstFreeIs(slots: Slots, k: nat)
    requires k <= |slots|
    requires forall j :: 0 <= j < k ==> slots[j].Some?
    requires k < |slots| ==> slots[k].None?
    ensures FirstFree(slots) == k
    decreases k
  {
    if k > 0 {
      FirstFreeIs(slots[1..], k - 1);
    }
  }

  /** Invoking one more dequeued record extends the invocations by it. */
  lemma InvocationsAppend(records: seq<ProviderCallbackData>, r: ProviderCallbackData)
    ensures Invocations(records + [r]) == Invocations(records) + [CallbackInvoked(r)]
  {
    var a, b := Invocations(records + [r]), Invocations(records) + [CallbackInvoked(r)];
    assert |a| == |b|;
    forall i | 0 <= i < |a|
      ensures a[i] == b[i]
    {
      if i < |records| {
        assert (records + [r])[i] == records[i];
      }
    }
  }

  /**
   * enable hands out a handle that is nonzero and not registered, and
   * ep_is_session_enabled reports it enabled straight afterwards.
   */
  lemma EnableRegistersFreshHandle(slots: Slots, index: map<SessionId, nat>, next: SessionId, k: nat, s: Session)
    requires HandlesMatch(slots, index, next) && k < |slots| && k < MaxSessions && slots[k].None?
    requires s.id == next && s.index == k
    ensures next != 0 && !InRegistry(slots, next)
    ensures SessionEnabled(slots[k := Some(s)], index[next := k], next)
  {
  }

  /** Disabling the session enable just stored in slot k gives back the slots as they were. */
  lemma EnableThenDisableRestoresSlots(slots: Slots, index: map<SessionId, nat>, next: SessionId, k: nat, s: Session)
    requires HandlesMatch(slots, index, next) && k < |slots| && k < MaxSessions && slots[k].None?
    requires s.id == next && s.index == k
    ensures SlotsAfterDisable(slots[k := Some(s)], next) == slots
  {
    var stored := slots[k := Some(s)];
    HandlesMatchFill(slots, index, next, k, s);
    RecordedSlot(stored, index[next := k], next + 1, k);
    assert stored[k := None] == slots;
  }

  /** A second disable of the same handle changes nothing, causes nothing and queues nothing. */
  lemma DisableTwiceIsNoop(slots: Slots, index: map<SessionId, nat>, next: SessionId, id: SessionId,
                           canStartThreads: bool, thread: bool, checkpoints: seq<ExecutionCheckpoint>,
                           config: ConfigCallbacks)
    requires HandlesMatch(slots, index, next)
    ensures !InRegistry(SlotsAfterDisable(slots, id), id)
    ensures SlotsAfterDisable(SlotsAfterDisable(slots, id), id) == SlotsAfterDisable(slots, id)
    ensures DisableTraceFor(SlotsAfterDisable(slots, id), id, canStartThreads, thread, checkpoints) == []
    ensures DisableCallbacksFor(SlotsAfterDisable(slots, id), id, canStartThreads, thread, config) == []
  {
    if InRegistry(slots, id) {
      HandlesAreUnique(slots, index, next);
      var k := SlotOf(slots, id);
      ClearedNotRegistered(slots, index, next, k);
    }
  }

  /** A slot sequence with nothing stored counts no sessions. */
  lemma {:induction false} EmptySlots(slots: Slots)
    requires forall i :: 0 <= i < |slots| ==> slots[i].None?
    ensures Occupied(slots) == 0
    decreases |slots|
  {
    if slots != [] {
      EmptySlots(slots[..|slots| - 1]);
    }
  }
}
