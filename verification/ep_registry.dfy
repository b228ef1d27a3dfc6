/**
 * The session registry of ep.c as values: the 64 session slots, the
 * allow-write word that publishes them to writers and the session count,
 * the invariant that ties the three together, and the fan-out a writer
 * performs over them.
 */
module EpRegistry {
  import opened EpTypes
  
  type Slots = seq<Option<Session>>

  /** The number of occupied slots. */
  function Occupied(slots: Slots): (n: nat)
    ensures n <= |slots|
  {
    if slots == [] then 0
    else (if slots[|slots| - 1].Some? then 1 else 0) + Occupied(slots[..|slots| - 1])
  }

  /** Filling an empty slot adds one session to the count. */
  lemma {:induction false} OccupiedFill(slots: Slots, k: nat, s: Session)
    requires k < |slots| && slots[k].None?
    ensures Occupied(slots[k := Some(s)]) == Occupied(slots) + 1
    decreases |slots|
  {
    var last := |slots| - 1;
    var updated := slots[k := Some(s)];
    if k == last {
      assert updated[..last] == slots[..last];
    } else {
      assert updated[..last] == slots[..last][k := Some(s)];
      OccupiedFill(slots[..last], k, s);
    }
  }

  /** Emptying an occupied slot removes one session from the count. */
  lemma {:induction false} OccupiedClear(slots: Slots, k: nat)
    requires k < |slots| && slots[k].Some?
    ensures Occupied(slots[k := None]) + 1 == Occupied(slots)
    decreases |slots|
  {
    var last := |slots| - 1;
    var updated := slots[k := None];
    if k == last {
      assert updated[..last] == slots[..last];
    } else {
      assert updated[..last] == slots[..last][k := None];
      OccupiedClear(slots[..last], k);
    }
  }

  /** The count is positive exactly when some slot is occupied. */
  lemma {:induction false} OccupiedPositive(slots: Slots)
    ensures Occupied(slots) > 0 <==> exists i :: 0 <= i < |slots| && slots[i].Some?
    decreases |slots|
  {
    if slots != [] {
      var last := |slots| - 1;
      OccupiedPositive(slots[..last]);
      if slots[last].None? && Occupied(slots) > 0 {
        var i :| 0 <= i < last && slots[..last][i].Some?;
        assert slots[i].Some?;
      }
      if exists i :: 0 <= i < |slots| && slots[i].Some? {
        var i :| 0 <= i < |slots| && slots[i].Some?;
        if i < last {
          assert slots[..last][i].Some?;
        }
      }
    }
  }

  /** The count reaches the slot count only when no slot is free. */
  lemma {:induction false} OccupiedBelowLength(slots: Slots, k: nat)
    requires k < |slots| && slots[k].None?
    ensures Occupied(slots) < |slots|
    decreases |slots|
  {
    var last := |slots| - 1;
    if k < last {
      assert slots[..last][k].None?;
      OccupiedBelowLength(slots[..last], k);
    }
  }

  /**
   * generate_session_index: the lowest free slot, or the slot count when all
   * slots are taken.
   */
  function FirstFree(slots: Slots): (k: nat)
    ensures k <= |slots|
    ensures forall j :: 0 <= j < k ==> slots[j].Some?
    ensures k < |slots| ==> slots[k].None?
  {
    if slots == [] || slots[0].None? then 0 else 1 + FirstFree(slots[1..])
  }

  predicate InRegistry(slots: Slots, id: SessionId) {
    exists i :: 0 <= i < |slots| && slots[i].Some? && slots[i].value.id == id
  }

  /** The slot that holds session `id`. */
  ghost function SlotOf(slots: Slots, id: SessionId): (k: nat)
    requires InRegistry(slots, id)
    ensures k < |slots| && slots[k].Some? && slots[k].value.id == id
  {
    var k :| 0 <= k < |slots| && slots[k].Some? && slots[k].value.id == id; k
  }

  /** No handle is stored in two slots. */
  predicate UniqueIds(slots: Slots) {
    forall i, j ::
      (0 <= i < |slots| && 0 <= j < |slots| && slots[i].Some? && slots[j].Some? &&
       slots[i].value.id == slots[j].value.id) ==> i == j
  }

  /**
   * The allow-write word as the set of slots whose bit is set: slot i is in
   * it exactly when slot i holds a session.
   */
  predicate BitsMatch(slots: Slots, allowWrite: set<nat>)
    requires |slots| == MaxSessions
  {
    (forall i :: i in allowWrite ==> i < MaxSessions && slots[i].Some?) &&
    (forall i :: 0 <= i < MaxSessions && slots[i].Some? ==> i in allowWrite)
  }

  /**
   * The registry invariant: the allow-write word publishes exactly the
   * occupied slots, each stored session records its own slot as its index,
   * and the session count is the number of occupied slots.
   */
  predicate RegistryInvariant(slots: Slots, allowWrite: set<nat>, count: nat) {
    |slots| == MaxSessions
    && BitsMatch(slots, allowWrite)
    && IndexesMatch(slots)
    && count == Occupied(slots)
  }

  /** Every stored session records its own slot as its index. */
  predicate IndexesMatch(slots: Slots) {
    forall i :: 0 <= i < |slots| && slots[i].Some? ==> slots[i].value.index == i
  }

  /**
   * Storing a session in a free slot and setting that slot's bit
   * (`allow_write | mask`) keeps the invariant.
   */
  lemma RegisterKeepsInvariant(slots: Slots, allowWrite: set<nat>, count: nat, k: nat, s: Session)
    requires RegistryInvariant(slots, allowWrite, count)
    requires k < MaxSessions && slots[k].None? && s.index == k
    ensures RegistryInvariant(slots[k := Some(s)], allowWrite + {k}, count + 1)
  {
    OccupiedFill(slots, k, s);
  }

  /**
   * Clearing a session's bit (`allow_write & ~mask`) and emptying its slot
   * keeps the invariant.
   */
  lemma UnregisterKeepsInvariant(slots: Slots, allowWrite: set<nat>, count: nat, k: nat)
    requires RegistryInvariant(slots, allowWrite, count)
    requires k < MaxSessions && slots[k].Some?
    ensures count > 0
    ensures RegistryInvariant(slots[k := None], allowWrite - {k}, count - 1)
  {
    OccupiedClear(slots, k);
  }

  /**
   * Session handles are cast pointers in the engine; here each handle ever
   * handed out is recorded with the slot its session was given. Every stored
   * session carries a handle below `next`, and the record names its slot.
   */
  predicate HandlesMatch(slots: Slots, index: map<SessionId, nat>, next: SessionId) {
    next > 0
    && (forall i :: 0 <= i < |slots| && slots[i].Some? ==>
       0 < slots[i].value.id < next && slots[i].value.id in index && index[slots[i].value.id] == i)
    && (forall id :: id in index ==> 0 < id < next && index[id] < MaxSessions)
  }

  /** Storing a session with a fresh handle in a free slot, and recording that slot, keeps the handles matched. */
  lemma HandlesMatchFill(slots: Slots, index: map<SessionId, nat>, next: SessionId, k: nat, s: Session)
    requires HandlesMatch(slots, index, next) && k < |slots| && k < MaxSessions && slots[k].None?
    requires s.id == next
    ensures HandlesMatch(slots[k := Some(s)], index[next := k], next + 1)
  {
  }

  /** Emptying a slot keeps the handles matched. */
  lemma HandlesMatchClear(slots: Slots, index: map<SessionId, nat>, next: SessionId, k: nat)
    requires HandlesMatch(slots, index, next) && k < |slots|
    ensures HandlesMatch(slots[k := None], index, next)
  {
  }

  /** The session stored in slot i is registered, and slot i is its slot. */
  lemma RecordedSlot(slots: Slots, index: map<SessionId, nat>, next: SessionId, i: nat)
    requires HandlesMatch(slots, index, next) && i < |slots| && slots[i].Some?
    ensures InRegistry(slots, slots[i].value.id) && SlotOf(slots, slots[i].value.id) == i
  {
  }

  /** Once its slot is emptied, a session's handle is no longer registered. */
  lemma ClearedNotRegistered(slots: Slots, index: map<SessionId, nat>, next: SessionId, k: nat)
    requires HandlesMatch(slots, index, next) && k < |slots| && slots[k].Some?
    ensures !InRegistry(slots[k := None], slots[k].value.id)
  {
  }

  /** A recorded handle names one slot, so no handle is stored twice. */
  lemma HandlesAreUnique(slots: Slots, index: map<SessionId, nat>, next: SessionId)
    requires HandlesMatch(slots, index, next)
    ensures UniqueIds(slots)
  {
  }

  /** A registered handle is stored in the slot recorded for it. */
  lemma RegisteredAtRecordedSlot(slots: Slots, index: map<SessionId, nat>, next: SessionId, id: SessionId)
    requires HandlesMatch(slots, index, next) && InRegistry(slots, id)
    ensures id in index && index[id] < |slots| && slots[index[id]].Some? && slots[index[id]].value.id == id
  {
  }

  /** No session is registered under the reserved handle 0. */
  lemma ZeroNeverRegistered(slots: Slots, index: map<SessionId, nat>, next: SessionId)
    requires HandlesMatch(slots, index, next)
    ensures !InRegistry(slots, 0)
  {
  }

  /**
   * ep_is_session_enabled as written: a nonzero handle reads the slot its
   * session recorded and reports whether that slot is occupied, by whichever
   * session occupies it now. It reports every session the intended check
   * reports; StaleHandleReportsEnabled shows it reports more.
   */
  function SessionEnabledAsWritten(slots: Slots, index: map<SessionId, nat>, id: SessionId): (enabled: bool)
    requires id == 0 || (id in index && index[id] < |slots|)
    ensures SessionEnabled(slots, index, id) ==> enabled
    ensures enabled ==> id != 0
  {
    id != 0 && slots[index[id]].Some?
  }

  /**
   * A handle whose session was disabled reports enabled once another
   * session has been given the same slot: handle 1 recorded slot 0, which
   * now holds handle 2.
   */
  lemma StaleHandleReportsEnabled(o: SessionOptions)
    ensures var slots := seq(MaxSessions, i => if i == 0 then Some(Session(2, 0, o)) else None);
            var index := map[1 := 0, 2 := 0];
            HandlesMatch(slots, index, 3) && !InRegistry(slots, 1) && SessionEnabledAsWritten(slots, index, 1)
  {
    var slots := seq(MaxSessions, i => if i == 0 then Some(Session(2, 0, o)) else None);
    assert slots[0] == Some(Session(2, 0, o));
  }

  /**
   * ep_is_session_enabled as intended: the handle's recorded slot is
   * occupied by that same session.
   */
  function SessionEnabled(slots: Slots, index: map<SessionId, nat>, id: SessionId): bool {
    id != 0 && id in index && index[id] < |slots| && slots[index[id]].Some? && slots[index[id]].value.id == id
  }

  /** The intended check reports enabled exactly for the registered handles. */
  lemma SessionEnabledIffRegistered(slots: Slots, index: map<SessionId, nat>, next: SessionId, id: SessionId)
    requires HandlesMatch(slots, index, next)
    ensures SessionEnabled(slots, index, id) <==> InRegistry(slots, id)
  {
    if InRegistry(slots, id) {
      RegisteredAtRecordedSlot(slots, index, next, id);
    }
  }

  /** Writers never find a set allow-write bit whose slot is empty. */
  predicate WritersSafe(slots: Slots, allowWrite: set<nat>) {
    forall i :: i in allowWrite ==> i < |slots| && slots[i].Some?
  }

  /**
   * enable publishes in the order slot, then bit: with the slot stored and
   * the bit not yet set, and again with both, every set bit has a session.
   */
  lemma PublishOrderKeepsWritersSafe(slots: Slots, allowWrite: set<nat>, count: nat, k: nat, s: Session)
    requires RegistryInvariant(slots, allowWrite, count) && k < MaxSessions && slots[k].None?
    ensures WritersSafe(slots[k := Some(s)], allowWrite)
    ensures WritersSafe(slots[k := Some(s)], allowWrite + {k})
  {
  }

  /**
   * disable_holding_lock unpublishes in the order bit, then slot: with the
   * bit cleared and the slot still stored, and again with both cleared,
   * every set bit has a session.
   */
  lemma UnpublishOrderKeepsWritersSafe(slots: Slots, allowWrite: set<nat>, count: nat, k: nat)
    requires RegistryInvariant(slots, allowWrite, count) && k < MaxSessions
    ensures WritersSafe(slots, allowWrite - {k})
    ensures WritersSafe(slots[k := None], allowWrite - {k})
  {
  }

  /**
   * The writes made by write_event_2's loop over slots [0, n): a slot whose
   * allow-write bit is set and whose session is still stored gets one write,
   * made while the thread's write-in-progress marker names that slot.
   */
  function Fanout(slots: Slots, allowWrite: set<nat>, n: nat, rec: EventRecord): seq<Effect>
    requires n <= |slots| && n <= 64
  {
    if n == 0 then []
    else
      var i := n - 1;
      Fanout(slots, allowWrite, i, rec) +
      (if i in allowWrite && slots[i].Some? then [EventWritten(slots[i].value.id, i, i, rec)] else [])
  }

  /** One write per registered session, in ascending slot order. */
  function Broadcast(slots: Slots, n: nat, rec: EventRecord): seq<Effect>
    requires n <= |slots|
  {
    if n == 0 then []
    else
      var i := n - 1;
      Broadcast(slots, i, rec) + (if slots[i].Some? then [EventWritten(slots[i].value.id, i, i, rec)] else [])
  }

  /** Under the registry invariant, the mask-driven fan-out reaches exactly the registered sessions. */
  lemma {:induction false} FanoutIsBroadcast(slots: Slots, allowWrite: set<nat>, count: nat, n: nat, rec: EventRecord)
    requires RegistryInvariant(slots, allowWrite, count) && n <= MaxSessions
    ensures Fanout(slots, allowWrite, n, rec) == Broadcast(slots, n, rec)
  {
    if n > 0 {
      FanoutIsBroadcast(slots, allowWrite, count, n - 1, rec);
    }
  }

  /** A broadcast over slots [0, n) makes as many writes as there are sessions there. */
  lemma {:induction false} BroadcastCount(slots: Slots, n: nat, rec: EventRecord)
    requires n <= |slots|
    ensures |Broadcast(slots, n, rec)| == Occupied(slots[..n])
  {
    if n > 0 {
      BroadcastCount(slots, n - 1, rec);
      assert slots[..n][..n - 1] == slots[..n - 1];
    }
  }

  /** Each registered session receives the event in the write made under its own slot. */
  lemma {:induction false} BroadcastReaches(slots: Slots, n: nat, rec: EventRecord, k: nat)
    requires k < n <= |slots| && slots[k].Some?
    ensures EventWritten(slots[k].value.id, k, k, rec) in Broadcast(slots, n, rec)
  {
    if k < n - 1 {
      BroadcastReaches(slots, n - 1, rec, k);
    }
  }

  /** Every write of a broadcast goes to a session stored in the slot it names. */
  lemma {:induction false} BroadcastTargets(slots: Slots, n: nat, rec: EventRecord, e: Effect)
    requires n <= |slots| && e in Broadcast(slots, n, rec)
    ensures e.EventWritten? && e.slot < n && e.marker == e.slot && e.record == rec
    ensures slots[e.slot].Some? && slots[e.slot].value.id == e.session
  {
    var i := n - 1;
    if e in Broadcast(slots, i, rec) {
      BroadcastTargets(slots, i, rec, e);
    }
  }

  /** Under the invariant, the fan-out over all slots writes once per live session. */
  lemma FanoutWritesOncePerSession(slots: Slots, allowWrite: set<nat>, count: nat, rec: EventRecord)
    requires RegistryInvariant(slots, allowWrite, count)
    ensures |Fanout(slots, allowWrite, MaxSessions, rec)| == count
  {
    FanoutIsBroadcast(slots, allowWrite, count, MaxSessions, rec);
    BroadcastCount(slots, MaxSessions, rec);
    assert slots[..MaxSessions] == slots;
  }
}
