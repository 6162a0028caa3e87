/** The single-flight refresh of the latest-slot and latest-block-height caches
    (crates/superbank-rpc/src/state.rs), as a transition system.

    Any number of tasks interleave; every atomic load, atomic store, clock read and lock
    operation is a step of its own. A step is taken by one task; `Cancel` drops a task's future
    at one of its await points. The clock is unconstrained: every read returns any value.

    The height cache is the general case: a request names a slot, and a third atomic remembers
    the slot of the cached height. The latest-slot cache is the instance whose requests all
    carry `UNKNOWN_SLOT`, so that its slot cell never changes and always matches. */
module CacheRefresh {
  import opened Basics

  type TaskId = nat
  type NotifyId = nat

  const UNKNOWN_SLOT: u64 := U64_MAX

  /** What a call returned. A served value remembers the versions of the three cells it was read
      from; a fetched one is the caller's own answer. */
  datatype Outcome =
    | Served(value: u64, stamp: u64, now: u64, seen: Versions)
    | Fetched(value: u64)
    | Failed

  /** How many timestamp, value and slot stores had happened when a reader loaded each cell. */
  datatype Versions = Versions(stamps: nat, values: nat, slots: nat)

  /** Who is removing a registered notification: the leader in `finish`, the leader's destructor,
      or the task that the destructor spawned. */
  datatype Remover = Finish(outcome: Outcome) | Destructor | Spawned

  datatype Pc =
    | LoadStamp(locked: bool)
    | LoadValue(locked: bool, stamp: u64, seen: Versions)
    | LoadSlot(locked: bool, stamp: u64, val: u64, seen: Versions)
    | Judge(locked: bool, stamp: u64, val: u64, slot: u64, seen: Versions)
    | WantLock
    | Elect
    | Parked(n: NotifyId, epoch: nat)
    | LoadHint(n: NotifyId)
    | Fetching(n: NotifyId)
    | StoreValue(n: NotifyId, val: u64)
    | StoreSlot(n: NotifyId, val: u64)
    | StoreStamp(n: NotifyId, val: u64)
    | WantRemove(n: NotifyId, who: Remover)
    | Removing(n: NotifyId, who: Remover)
    | Notifying(n: NotifyId, who: Remover)
    | Returned(outcome: Outcome)
    | Gone

  datatype Task = Task(slot: u64, pc: Pc)

  /** A completed value store: the slot the refresh asked for and the value it got. */
  datatype Refresh = Refresh(slot: u64, value: u64)

  /** `fired[n]` counts the `notify_waiters` calls on notification `n`. `log`, `slotStores` and
      `stamps` are the history of the three cells; `orphaned` are the notifications whose leader
      was dropped by the runtime-teardown branch. */
  datatype State = State(
    tasks: map<TaskId, Task>,
    holder: Option<TaskId>,
    entry: Option<NotifyId>,
    fired: seq<nat>,
    orphaned: set<NotifyId>,
    value: u64, slot: u64, stamp: u64,
    log: seq<Refresh>, slotStores: nat, stamps: seq<u64>)

  datatype Action =
    | Call(t: TaskId, slot: u64)
    | Load(t: TaskId)
    | Decide(t: TaskId, now: u64)
    | Lock(t: TaskId)
    | TakeRole(t: TaskId)
    | Wake(t: TaskId)
    | StartFetch(t: TaskId)
    | FetchOk(t: TaskId, val: u64)
    | FetchErr(t: TaskId)
    | Store(t: TaskId, now: u64)
    | LockToRemove(t: TaskId)
    | Remove(t: TaskId)
    | Notify(t: TaskId)
    | Cancel(t: TaskId)
    | SpawnCleanup(t: TaskId, child: TaskId)
    | TearDown(t: TaskId)

  function Init(value: u64): State {
    State(map[], None, None, [], {}, value, UNKNOWN_SLOT, 0, [], 0, [])
  }

  predicate Fresh(ttl: u64, now: u64, stamp: u64, cachedSlot: u64, slot: u64) {
    && stamp != 0
    && SaturatingSub(now, stamp) <= ttl
    && (cachedSlot == slot || cachedSlot == UNKNOWN_SLOT)
  }

  // ---- Steps --------------------------------------------------------------------

  predicate At(s: State, t: TaskId) {
    t in s.tasks
  }

  predicate Enabled(s: State, a: Action) {
    match a
    case Call(t, _) => t !in s.tasks
    case Load(t) => At(s, t) && (var pc := s.tasks[t].pc; pc.LoadStamp? || pc.LoadValue? || pc.LoadSlot?)
    case Decide(t, _) => At(s, t) && s.tasks[t].pc.Judge?
    case Lock(t) => At(s, t) && s.tasks[t].pc.WantLock? && s.holder.None?
    case TakeRole(t) => At(s, t) && s.tasks[t].pc.Elect? && (s.entry.Some? ==> s.entry.value < |s.fired|)
    case Wake(t) => At(s, t) && s.tasks[t].pc.Parked?
                    && s.tasks[t].pc.n < |s.fired| && s.fired[s.tasks[t].pc.n] > s.tasks[t].pc.epoch
    case StartFetch(t) => At(s, t) && s.tasks[t].pc.LoadHint?
    case FetchOk(t, _) => At(s, t) && s.tasks[t].pc.Fetching?
    case FetchErr(t) => At(s, t) && s.tasks[t].pc.Fetching?
    case Store(t, _) => At(s, t) && (var pc := s.tasks[t].pc; pc.StoreValue? || pc.StoreSlot? || pc.StoreStamp?)
    case LockToRemove(t) => At(s, t) && s.tasks[t].pc.WantRemove? && s.holder.None?
    case Remove(t) => At(s, t) && s.tasks[t].pc.Removing?
    case Notify(t) => At(s, t) && s.tasks[t].pc.Notifying? && s.tasks[t].pc.n < |s.fired|
    case Cancel(t) => At(s, t) && AtAwait(s.tasks[t].pc)
    case SpawnCleanup(t, child) => At(s, t) && child !in s.tasks && Contended(s, t)
    case TearDown(t) => At(s, t) && Contended(s, t) && s.tasks[t].pc.n < |s.fired|
  }

  /** The await points at which a caller's future can be dropped. The spawned cleanup has no
      caller. */
  predicate AtAwait(pc: Pc) {
    pc.WantLock? || pc.Parked? || pc.Fetching? || (pc.WantRemove? && pc.who.Finish?)
  }

  /** The destructor's `try_lock` may fail: because a task holds the lock, or because the lock is on
      its way to a queued waiter that has not run yet and may still be dropped. */
  predicate Contended(s: State, t: TaskId)
    requires At(s, t)
  {
    s.tasks[t].pc.WantRemove? && s.tasks[t].pc.who.Destructor?
  }

  function Goto(s: State, t: TaskId, pc: Pc): State
    requires At(s, t)
  {
    s.(tasks := s.tasks[t := s.tasks[t].(pc := pc)])
  }

  function Unlock(s: State, locked: bool): State {
    if locked then s.(holder := None) else s
  }

  function ApplyLoad(s: State, t: TaskId): State
    requires Enabled(s, Load(t))
  {
    match s.tasks[t].pc
    case LoadStamp(locked) =>
      Goto(s, t, LoadValue(locked, s.stamp, Versions(|s.stamps|, 0, 0)))
    case LoadValue(locked, stamp, seen) =>
      Goto(s, t, LoadSlot(locked, stamp, s.value, seen.(values := |s.log|)))
    case LoadSlot(locked, stamp, val, seen) =>
      Goto(s, t, Judge(locked, stamp, val, s.slot, seen.(slots := s.slotStores)))
  }

  function ApplyDecide(ttl: u64, s: State, t: TaskId, now: u64): State
    requires Enabled(s, Decide(t, now))
  {
    var Judge(locked, stamp, val, slot, seen) := s.tasks[t].pc;
    if Fresh(ttl, now, stamp, slot, s.tasks[t].slot) then
      Unlock(Goto(s, t, Returned(Served(val, stamp, now, seen))), locked)
    else
      Goto(s, t, if locked then Elect else WantLock)
  }

  /** Join the registered refresh, or register a new one and lead it; then unlock. */
  function ApplyTakeRole(s: State, t: TaskId): State
    requires Enabled(s, TakeRole(t))
  {
    match s.entry
    case Some(n) => Unlock(Goto(s, t, Parked(n, s.fired[n])), true)
    case None =>
      var n := |s.fired|;
      Unlock(Goto(s, t, LoadHint(n)), true).(entry := Some(n), fired := s.fired + [0])
  }

  function ApplyStore(s: State, t: TaskId, now: u64): State
    requires Enabled(s, Store(t, now))
  {
    var slot := s.tasks[t].slot;
    match s.tasks[t].pc
    case StoreValue(n, val) =>
      Goto(s, t, StoreSlot(n, val)).(value := val, log := s.log + [Refresh(slot, val)])
    case StoreSlot(n, val) =>
      Goto(s, t, StoreStamp(n, val)).(slot := slot, slotStores := s.slotStores + 1)
    case StoreStamp(n, val) =>
      Goto(s, t, WantRemove(n, Finish(Fetched(val)))).(stamp := now, stamps := s.stamps + [now])
  }

  function ApplyRemove(s: State, t: TaskId): State
    requires Enabled(s, Remove(t))
  {
    var Removing(n, who) := s.tasks[t].pc;
    var s' := Unlock(Goto(s, t, Notifying(n, who)), true);
    if s.entry == Some(n) then s'.(entry := None) else s'
  }

  function Fire(s: State, n: NotifyId): State
    requires n < |s.fired|
  {
    s.(fired := s.fired[n := s.fired[n] + 1])
  }

  function ApplyCancel(s: State, t: TaskId): State
    requires Enabled(s, Cancel(t))
  {
    match s.tasks[t].pc
    case WantLock => Goto(s, t, Gone)
    case Parked(_, _) => Goto(s, t, Gone)
    case Fetching(n) => Goto(s, t, WantRemove(n, Destructor))
    case WantRemove(n, _) => Goto(s, t, WantRemove(n, Destructor))
  }

  function Apply(ttl: u64, s: State, a: Action): State
    requires Enabled(s, a)
  {
    match a
    case Call(t, slot) => s.(tasks := s.tasks[t := Task(slot, LoadStamp(false))])
    case Load(t) => ApplyLoad(s, t)
    case Decide(t, now) => ApplyDecide(ttl, s, t, now)
    case Lock(t) => Goto(s, t, LoadStamp(true)).(holder := Some(t))
    case TakeRole(t) => ApplyTakeRole(s, t)
    case Wake(t) => Goto(s, t, LoadStamp(false))
    case StartFetch(t) => Goto(s, t, Fetching(s.tasks[t].pc.n))
    case FetchOk(t, val) => Goto(s, t, StoreValue(s.tasks[t].pc.n, val))
    case FetchErr(t) => Goto(s, t, WantRemove(s.tasks[t].pc.n, Finish(Failed)))
    case Store(t, now) => ApplyStore(s, t, now)
    case LockToRemove(t) =>
      Goto(s, t, Removing(s.tasks[t].pc.n, s.tasks[t].pc.who)).(holder := Some(t))
    case Remove(t) => ApplyRemove(s, t)
    case Notify(t) =>
      var Notifying(n, who) := s.tasks[t].pc;
      Fire(Goto(s, t, if who.Finish? then Returned(who.outcome) else Gone), n)
    case Cancel(t) => ApplyCancel(s, t)
    case SpawnCleanup(t, child) =>
      var n := s.tasks[t].pc.n;
      var s' := Goto(s, t, Gone);
      s'.(tasks := s'.tasks[child := Task(s.tasks[t].slot, WantRemove(n, Spawned))])
    case TearDown(t) =>
      var n := s.tasks[t].pc.n;
      Fire(Goto(s, t, Gone), n).(orphaned := s.orphaned + {n})
  }

  /** `acts` is a run from `s` to `s'`. */
  ghost predicate Run(ttl: u64, s: State, acts: seq<Action>, s': State)
    decreases |acts|
  {
    if acts == [] then s == s'
    else Enabled(s, acts[0]) && Run(ttl, Apply(ttl, s, acts[0]), acts[1..], s')
  }

  ghost predicate Reachable(ttl: u64, s: State) {
    exists value, acts :: Run(ttl, Init(value), acts, s)
  }

  // ---- The protocol invariant ---------------------------------------------------

  predicate HoldsLock(pc: Pc) {
    match pc
    case LoadStamp(locked) => locked
    case LoadValue(locked, _, _) => locked
    case LoadSlot(locked, _, _, _) => locked
    case Judge(locked, _, _, _, _) => locked
    case Elect => true
    case Removing(_, _) => true
    case _ => false
  }

  /** The notification the task is responsible for removing: an armed leader or a pending
      cleanup. */
  function Owns(pc: Pc): Option<NotifyId> {
    match pc
    case LoadHint(n) => Some(n)
    case Fetching(n) => Some(n)
    case StoreValue(n, _) => Some(n)
    case StoreSlot(n, _) => Some(n)
    case StoreStamp(n, _) => Some(n)
    case WantRemove(n, _) => Some(n)
    case Removing(n, _) => Some(n)
    case _ => None
  }

  /** The notification the task has removed and is about to fire. */
  function Fires(pc: Pc): Option<NotifyId> {
    match pc
    case Notifying(n, _) => Some(n)
    case _ => None
  }

  ghost predicate Owner(s: State, t: TaskId, n: NotifyId) {
    t in s.tasks && Owns(s.tasks[t].pc) == Some(n)
  }

  ghost predicate Notifier(s: State, t: TaskId, n: NotifyId) {
    t in s.tasks && Fires(s.tasks[t].pc) == Some(n)
  }

  ghost predicate LockInv(s: State) {
    && (s.holder.Some? ==> s.holder.value in s.tasks && HoldsLock(s.tasks[s.holder.value].pc))
    && (forall t :: t in s.tasks && HoldsLock(s.tasks[t].pc) ==> s.holder == Some(t))
  }

  ghost predicate EntryInv(s: State) {
    && (s.entry.Some? ==> s.entry.value < |s.fired|)
    && (s.entry.Some? && s.entry.value !in s.orphaned ==> s.fired[s.entry.value] == 0)
    && (s.entry.Some? && s.entry.value !in s.orphaned ==> exists t :: Owner(s, t, s.entry.value))
    && (forall n :: n in s.orphaned ==> s.entry == Some(n))
  }

  ghost predicate OwnerInv(s: State) {
    && (forall t, n: NotifyId :: Owner(s, t, n) ==> s.entry == Some(n) && n !in s.orphaned)
    && (forall t, u, n: NotifyId, m: NotifyId :: Owner(s, t, n) && Owner(s, u, m) ==> t == u)
  }

  ghost predicate NotifierInv(s: State) {
    && (forall t, n: NotifyId :: Notifier(s, t, n) ==>
          n < |s.fired| && s.fired[n] == 0 && s.entry != Some(n) && n !in s.orphaned)
    && (forall t, u, n: NotifyId :: Notifier(s, t, n) && Notifier(s, u, n) ==> t == u)
  }

  ghost predicate WaiterInv(s: State) {
    forall t :: t in s.tasks && s.tasks[t].pc.Parked? ==> WaiterOk(s, s.tasks[t].pc.n, s.tasks[t].pc.epoch)
  }

  ghost predicate WaiterOk(s: State, n: NotifyId, epoch: nat) {
    && n < |s.fired|
    && epoch <= s.fired[n]
    && (s.fired[n] == epoch ==> s.entry == Some(n) || exists u :: Notifier(s, u, n))
  }

  ghost predicate ProtocolInv(s: State) {
    LockInv(s) && EntryInv(s) && OwnerInv(s) && NotifierInv(s) && WaiterInv(s)
  }

  lemma InitInv(value: u64)
    ensures ProtocolInv(Init(value))
  {
  }

  /** Changing only what a task has read or fetched keeps the protocol invariant. */
  lemma QuietStep(s: State, s': State, t: TaskId)
    requires ProtocolInv(s) && t in s.tasks && t in s'.tasks
    requires s'.tasks == s.tasks[t := s'.tasks[t]]
    requires Owns(s'.tasks[t].pc) == Owns(s.tasks[t].pc)
    requires Fires(s'.tasks[t].pc) == Fires(s.tasks[t].pc)
    requires HoldsLock(s'.tasks[t].pc) == HoldsLock(s.tasks[t].pc)
    requires !s'.tasks[t].pc.Parked?
    requires s'.holder == s.holder && s'.entry == s.entry && s'.fired == s.fired && s'.orphaned == s.orphaned
    ensures ProtocolInv(s')
  {
    assert forall u, n :: Owner(s', u, n) <==> Owner(s, u, n);
    assert forall u, n :: Notifier(s', u, n) <==> Notifier(s, u, n);
    assert forall u :: u in s'.tasks && s'.tasks[u].pc.Parked? ==> s.tasks[u].pc == s'.tasks[u].pc;
    assert forall u :: u in s'.tasks ==> HoldsLock(s'.tasks[u].pc) == HoldsLock(s.tasks[u].pc);
  }

  /** Taking or releasing the lock, with nothing else the protocol looks at changed. */
  lemma LockStep(s: State, s': State, t: TaskId)
    requires ProtocolInv(s) && t in s.tasks && t in s'.tasks
    requires s'.tasks == s.tasks[t := s'.tasks[t]]
    requires Owns(s'.tasks[t].pc) == Owns(s.tasks[t].pc)
    requires Fires(s'.tasks[t].pc) == Fires(s.tasks[t].pc)
    requires !s'.tasks[t].pc.Parked?
    requires (s.holder.None? && HoldsLock(s'.tasks[t].pc) && s'.holder == Some(t))
             || (s.holder == Some(t) && !HoldsLock(s'.tasks[t].pc) && s'.holder == None)
    requires s'.entry == s.entry && s'.fired == s.fired && s'.orphaned == s.orphaned
    ensures ProtocolInv(s')
  {
    assert forall u, n :: Owner(s', u, n) <==> Owner(s, u, n);
    assert forall u, n :: Notifier(s', u, n) <==> Notifier(s, u, n);
    assert forall u :: u in s'.tasks && s'.tasks[u].pc.Parked? ==> s.tasks[u].pc == s'.tasks[u].pc;
    assert forall u :: u in s'.tasks && u != t ==> HoldsLock(s'.tasks[u].pc) == HoldsLock(s.tasks[u].pc);
  }

  lemma CallKeepsInv(s: State, t: TaskId, slot: u64)
    requires ProtocolInv(s) && t !in s.tasks
    ensures ProtocolInv(s.(tasks := s.tasks[t := Task(slot, LoadStamp(false))]))
  {
    var s' := s.(tasks := s.tasks[t := Task(slot, LoadStamp(false))]);
    assert forall u, n :: Owner(s', u, n) <==> Owner(s, u, n);
    assert forall u, n :: Notifier(s', u, n) <==> Notifier(s, u, n);
    assert forall u :: u in s'.tasks && s'.tasks[u].pc.Parked? ==> s.tasks[u].pc == s'.tasks[u].pc;
    assert forall u :: u in s'.tasks && u != t ==> HoldsLock(s'.tasks[u].pc) == HoldsLock(s.tasks[u].pc);
  }

  lemma ParkKeepsInv(s: State, t: TaskId)
    requires ProtocolInv(s) && Enabled(s, TakeRole(t)) && s.entry.Some?
    ensures ProtocolInv(ApplyTakeRole(s, t))
  {
    var s' := ApplyTakeRole(s, t);
    assert s.holder == Some(t);
    assert forall u, n :: Owner(s', u, n) <==> Owner(s, u, n);
    assert forall u, n :: Notifier(s', u, n) <==> Notifier(s, u, n);
    assert forall u :: u in s'.tasks && u != t ==> s.tasks[u] == s'.tasks[u];
  }

  lemma LeadKeepsInv(s: State, t: TaskId)
    requires ProtocolInv(s) && Enabled(s, TakeRole(t)) && s.entry.None?
    ensures ProtocolInv(ApplyTakeRole(s, t))
  {
    var s' := ApplyTakeRole(s, t);
    assert s.holder == Some(t);
    assert forall u, n :: !Owner(s, u, n);
    assert Owner(s', t, |s.fired|);
    forall u, n | Owner(s', u, n) ensures u == t && n == |s.fired| {
      assert u != t ==> Owner(s, u, n);
    }
    assert forall u, n :: Notifier(s', u, n) <==> Notifier(s, u, n);
    assert forall u :: u in s'.tasks && u != t ==> s.tasks[u] == s'.tasks[u];
  }

  lemma WakeKeepsInv(s: State, s': State, t: TaskId)
    requires ProtocolInv(s) && t in s.tasks && (s.tasks[t].pc.Parked? || s.tasks[t].pc.WantLock?)
    requires s' == Goto(s, t, LoadStamp(false)) || s' == Goto(s, t, Gone)
    ensures ProtocolInv(s')
  {
    assert forall u, n :: Owner(s', u, n) <==> Owner(s, u, n);
    assert forall u, n :: Notifier(s', u, n) <==> Notifier(s, u, n);
    assert forall u :: u in s'.tasks && u != t ==> s.tasks[u] == s'.tasks[u];
  }

  lemma RemoveKeepsInv(s: State, t: TaskId)
    requires ProtocolInv(s) && Enabled(s, Remove(t))
    ensures ProtocolInv(ApplyRemove(s, t))
  {
    var s' := ApplyRemove(s, t);
    var n := s.tasks[t].pc.n;
    assert Owner(s, t, n) && s.holder == Some(t);
    assert forall u, m :: !Owner(s', u, m) by {
      forall u, m ensures !Owner(s', u, m) {
        if Owner(s', u, m) { assert Owner(s, u, m); }
      }
    }
    assert Notifier(s', t, n);
    assert forall u, m :: Notifier(s', u, m) <==> Notifier(s, u, m) || (u == t && m == n);
    assert forall u :: u in s'.tasks && u != t ==> s.tasks[u] == s'.tasks[u];
  }

  lemma NotifyKeepsInv(s: State, t: TaskId, pc: Pc)
    requires ProtocolInv(s) && Enabled(s, Notify(t)) && (pc.Returned? || pc.Gone?)
    ensures ProtocolInv(Fire(Goto(s, t, pc), s.tasks[t].pc.n))
  {
    var n := s.tasks[t].pc.n;
    var s' := Fire(Goto(s, t, pc), n);
    assert Notifier(s, t, n);
    assert forall u, m :: Owner(s', u, m) <==> Owner(s, u, m);
    assert forall u, m :: Notifier(s', u, m) <==> Notifier(s, u, m) && u != t;
    assert forall u :: u in s'.tasks && u != t ==> s.tasks[u] == s'.tasks[u];
    forall u | u in s'.tasks && s'.tasks[u].pc.Parked?
      ensures WaiterOk(s', s'.tasks[u].pc.n, s'.tasks[u].pc.epoch)
    {
      var m, e := s'.tasks[u].pc.n, s'.tasks[u].pc.epoch;
      assert WaiterOk(s, m, e);
      if m != n && s.fired[m] == e && s.entry != Some(m) {
        var v :| Notifier(s, v, m);
        assert Notifier(s', v, m);
      }
    }
  }

  lemma SpawnKeepsInv(s: State, t: TaskId, child: TaskId)
    requires ProtocolInv(s) && Enabled(s, SpawnCleanup(t, child))
    ensures ProtocolInv(Apply(0, s, SpawnCleanup(t, child)))
  {
    var n := s.tasks[t].pc.n;
    var s' := Apply(0, s, SpawnCleanup(t, child));
    assert Owner(s, t, n) && Owner(s', child, n);
    forall u, m | Owner(s', u, m) ensures u == child && m == n {
      assert u != child ==> Owner(s, u, m);
    }
    assert forall u, m :: Notifier(s', u, m) <==> Notifier(s, u, m);
    assert forall u :: u in s'.tasks && u != t && u != child ==> s.tasks[u] == s'.tasks[u];
  }

  lemma TearDownKeepsInv(s: State, t: TaskId)
    requires ProtocolInv(s) && Enabled(s, TearDown(t))
    ensures ProtocolInv(Apply(0, s, TearDown(t)))
  {
    var n := s.tasks[t].pc.n;
    var s' := Apply(0, s, TearDown(t));
    assert Owner(s, t, n);
    assert forall u, m :: !Owner(s', u, m) by {
      forall u, m ensures !Owner(s', u, m) {
        if Owner(s', u, m) { assert Owner(s, u, m); }
      }
    }
    assert forall u, m :: Notifier(s', u, m) <==> Notifier(s, u, m);
    assert forall u :: u in s'.tasks && u != t ==> s.tasks[u] == s'.tasks[u];
    forall u | u in s'.tasks && s'.tasks[u].pc.Parked?
      ensures WaiterOk(s', s'.tasks[u].pc.n, s'.tasks[u].pc.epoch)
    {
      assert WaiterOk(s, s'.tasks[u].pc.n, s'.tasks[u].pc.epoch);
    }
  }

  lemma QuietActionKeepsInv(ttl: u64, s: State, a: Action)
    requires ProtocolInv(s) && Enabled(s, a)
    requires a.Load? || a.StartFetch? || a.FetchOk? || a.FetchErr? || a.Store?
    ensures ProtocolInv(Apply(ttl, s, a))
  {
    QuietStep(s, Apply(ttl, s, a), a.t);
  }

  /** Every step of every task keeps the protocol invariant. */
  lemma StepKeepsProtocol(ttl: u64, s: State, a: Action)
    requires ProtocolInv(s) && Enabled(s, a)
    ensures ProtocolInv(Apply(ttl, s, a))
  {
    var s' := Apply(ttl, s, a);
    match a {
      case Call(t, slot) => CallKeepsInv(s, t, slot);
      case Load(t) => QuietActionKeepsInv(ttl, s, a);
      case Decide(t, now) => DecideKeepsInv(ttl, s, t, now);
      case Lock(t) => LockStep(s, s', t);
      case TakeRole(t) => if s.entry.Some? { ParkKeepsInv(s, t); } else { LeadKeepsInv(s, t); }
      case Wake(t) => WakeKeepsInv(s, s', t);
      case StartFetch(t) => QuietActionKeepsInv(ttl, s, a);
      case FetchOk(t, _) => QuietActionKeepsInv(ttl, s, a);
      case FetchErr(t) => QuietActionKeepsInv(ttl, s, a);
      case Store(t, now) => QuietActionKeepsInv(ttl, s, a);
      case LockToRemove(t) => LockStep(s, s', t);
      case Remove(t) => RemoveKeepsInv(s, t);
      case Notify(t) => NotifyKeepsInv(s, t, s'.tasks[t].pc);
      case Cancel(t) =>
        if s.tasks[t].pc.WantLock? || s.tasks[t].pc.Parked? { WakeKeepsInv(s, s', t); } else { QuietStep(s, s', t); }
      case SpawnCleanup(t, child) => SpawnKeepsInv(s, t, child);
      case TearDown(t) => TearDownKeepsInv(s, t);
    }
  }

  lemma DecideKeepsInv(ttl: u64, s: State, t: TaskId, now: u64)
    requires ProtocolInv(s) && Enabled(s, Decide(t, now))
    ensures ProtocolInv(ApplyDecide(ttl, s, t, now))
  {
    var s' := ApplyDecide(ttl, s, t, now);
    if HoldsLock(s.tasks[t].pc) == HoldsLock(s'.tasks[t].pc) {
      QuietStep(s, s', t);
    } else {
      LockStep(s, s', t);
    }
  }

  // ---- The data invariant -------------------------------------------------------

  ghost predicate Storing(s: State, t: TaskId) {
    t in s.tasks && (s.tasks[t].pc.StoreSlot? || s.tasks[t].pc.StoreStamp?)
  }

  /** The cells hold the latest entries of their histories, and at most one refresh is between
      its value store and its timestamp store. */
  ghost predicate CellInv(s: State) {
    && |s.stamps| <= s.slotStores <= |s.log| <= |s.stamps| + 1
    && (s.log != [] ==> s.value == s.log[|s.log| - 1].value)
    && s.slot == (if s.slotStores == 0 then UNKNOWN_SLOT else s.log[s.slotStores - 1].slot)
    && s.stamp == (if s.stamps == [] then 0 else s.stamps[|s.stamps| - 1])
    && (|s.log| > |s.stamps| ==> exists t :: Storing(s, t))
  }

  ghost predicate StoreInv(s: State) {
    && (forall t :: Storing(s, t) ==> |s.log| == |s.stamps| + 1)
    && (forall t :: Storing(s, t) && s.tasks[t].pc.StoreSlot? ==>
          s.slotStores == |s.stamps| && s.log[s.slotStores].slot == s.tasks[t].slot)
    && (forall t :: Storing(s, t) && s.tasks[t].pc.StoreStamp? ==> s.slotStores == |s.log|)
  }

  ghost predicate StampRead(s: State, stamp: u64, seen: Versions) {
    && seen.stamps <= |s.stamps|
    && stamp == (if seen.stamps == 0 then 0 else s.stamps[seen.stamps - 1])
  }

  ghost predicate ValueRead(s: State, val: u64, seen: Versions) {
    && seen.stamps <= seen.values <= |s.log|
    && seen.values <= s.slotStores + 1
    && (seen.values > 0 ==> val == s.log[seen.values - 1].value)
  }

  ghost predicate SlotRead(s: State, slot: u64, seen: Versions) {
    && seen.stamps <= seen.slots <= s.slotStores <= |s.log|
    && seen.values <= seen.slots + 1
    && slot == (if seen.slots == 0 then UNKNOWN_SLOT else s.log[seen.slots - 1].slot)
  }

  ghost predicate ServedInv(ttl: u64, s: State, slot: u64, o: Outcome) {
    o.Served? ==>
      && StampRead(s, o.stamp, o.seen)
      && ValueRead(s, o.value, o.seen)
      && o.stamp != 0 && SaturatingSub(o.now, o.stamp) <= ttl
      && o.seen.stamps <= o.seen.slots <= s.slotStores <= |s.log|
      && o.seen.values <= o.seen.slots + 1
      && (o.seen.slots > 0 ==> s.log[o.seen.slots - 1].slot in {slot, UNKNOWN_SLOT})
  }

  ghost predicate TaskInv(ttl: u64, s: State, task: Task) {
    match task.pc
    case LoadValue(_, stamp, seen) => StampRead(s, stamp, seen)
    case LoadSlot(_, stamp, val, seen) => StampRead(s, stamp, seen) && ValueRead(s, val, seen)
    case Judge(_, stamp, val, slot, seen) =>
      StampRead(s, stamp, seen) && ValueRead(s, val, seen) && SlotRead(s, slot, seen)
    case WantRemove(_, who) => who.Finish? ==> !who.outcome.Served?
    case Removing(_, who) => who.Finish? ==> !who.outcome.Served?
    case Notifying(_, who) => who.Finish? ==> !who.outcome.Served?
    case Returned(o) => ServedInv(ttl, s, task.slot, o)
    case _ => true
  }

  ghost predicate ReaderInv(ttl: u64, s: State) {
    forall t :: t in s.tasks ==> TaskInv(ttl, s, s.tasks[t])
  }

  ghost predicate DataInv(ttl: u64, s: State) {
    CellInv(s) && StoreInv(s) && ReaderInv(ttl, s)
  }

  ghost predicate Inv(ttl: u64, s: State) {
    ProtocolInv(s) && DataInv(ttl, s)
  }

  ghost predicate Extends(s: State, s': State) {
    && |s.log| <= |s'.log| && s'.log[..|s.log|] == s.log
    && |s.stamps| <= |s'.stamps| && s'.stamps[..|s.stamps|] == s.stamps
    && s.slotStores <= s'.slotStores <= |s'.log|
  }

  /** What a task has read stays true of the history as the history grows. */
  lemma TaskInvStable(ttl: u64, s: State, s': State, task: Task)
    requires TaskInv(ttl, s, task) && Extends(s, s')
    ensures TaskInv(ttl, s', task)
  {
    assert forall i :: 0 <= i < |s.log| ==> s'.log[i] == s.log[i];
    assert forall i :: 0 <= i < |s.stamps| ==> s'.stamps[i] == s.stamps[i];
  }

  lemma ReadersStable(ttl: u64, s: State, s': State, t: TaskId)
    requires ReaderInv(ttl, s) && Extends(s, s')
    requires forall u :: u in s'.tasks && u != t ==> u in s.tasks && s'.tasks[u] == s.tasks[u]
    requires t in s'.tasks ==> TaskInv(ttl, s', s'.tasks[t])
    ensures ReaderInv(ttl, s')
  {
    forall u | u in s'.tasks ensures TaskInv(ttl, s', s'.tasks[u]) {
      if u != t {
        TaskInvStable(ttl, s, s', s'.tasks[u]);
      }
    }
  }

  predicate SameCells(s: State, s': State) {
    && s'.value == s.value && s'.slot == s.slot && s'.stamp == s.stamp
    && s'.log == s.log && s'.slotStores == s.slotStores && s'.stamps == s.stamps
  }

  /** A step of `t` that stores nothing. */
  lemma NoStoreKeepsData(ttl: u64, s: State, s': State, t: TaskId)
    requires DataInv(ttl, s) && SameCells(s, s')
    requires forall u :: u in s'.tasks && u != t ==> u in s.tasks && s'.tasks[u] == s.tasks[u]
    requires forall u :: u in s.tasks && u != t ==> u in s'.tasks
    requires t in s.tasks ==> !Storing(s, t)
    requires t in s'.tasks ==> !Storing(s', t) && TaskInv(ttl, s', s'.tasks[t])
    ensures DataInv(ttl, s')
  {
    assert s.log[..|s.log|] == s.log && s.stamps[..|s.stamps|] == s.stamps;
    assert forall u :: Storing(s', u) <==> Storing(s, u);
    ReadersStable(ttl, s, s', t);
  }

  lemma StoreKeepsData(ttl: u64, s: State, t: TaskId, now: u64)
    requires Inv(ttl, s) && Enabled(s, Store(t, now))
    ensures DataInv(ttl, ApplyStore(s, t, now))
  {
    var s' := ApplyStore(s, t, now);
    assert Owner(s, t, s.tasks[t].pc.n);
    forall u | Storing(s, u) ensures u == t {
      assert Owner(s, u, s.tasks[u].pc.n);
    }
    forall u | Storing(s', u) ensures u == t {
      assert u != t ==> Storing(s, u);
    }
    assert s.tasks[t].pc.StoreValue? || Storing(s, t);
    assert s'.tasks[t].pc.WantRemove? || Storing(s', t);
    assert s'.log[..|s.log|] == s.log && s'.stamps[..|s.stamps|] == s.stamps;
    ReadersStable(ttl, s, s', t);
  }

  lemma LoadReadsHistory(ttl: u64, s: State, t: TaskId)
    requires DataInv(ttl, s) && Enabled(s, Load(t))
    ensures TaskInv(ttl, ApplyLoad(s, t), ApplyLoad(s, t).tasks[t])
  {
    assert TaskInv(ttl, s, s.tasks[t]);
  }

  lemma DecideServesHistory(ttl: u64, s: State, t: TaskId, now: u64)
    requires DataInv(ttl, s) && Enabled(s, Decide(t, now))
    ensures TaskInv(ttl, ApplyDecide(ttl, s, t, now), ApplyDecide(ttl, s, t, now).tasks[t])
  {
    assert TaskInv(ttl, s, s.tasks[t]);
  }

  /** The steps that neither read nor store a cell: they only move the task on. */
  predicate Moves(a: Action) {
    !a.Load? && !a.Decide? && !a.Store? && !a.SpawnCleanup?
  }

  lemma MoveKeepsCells(ttl: u64, s: State, a: Action)
    requires Enabled(s, a) && Moves(a)
    ensures SameCells(s, Apply(ttl, s, a))
    ensures a.t in Apply(ttl, s, a).tasks
    ensures Apply(ttl, s, a).tasks == s.tasks[a.t := Apply(ttl, s, a).tasks[a.t]]
    ensures a.t in s.tasks ==> !Storing(s, a.t)
    ensures !Storing(Apply(ttl, s, a), a.t)
  {
  }

  lemma MoveKeepsTask(ttl: u64, s: State, a: Action)
    requires DataInv(ttl, s) && Enabled(s, a) && Moves(a)
    ensures a.t in Apply(ttl, s, a).tasks
    ensures TaskInv(ttl, Apply(ttl, s, a), Apply(ttl, s, a).tasks[a.t])
  {
    if !a.Call? {
      assert TaskInv(ttl, s, s.tasks[a.t]);
    }
  }

  /** Every step keeps the whole invariant: the protocol's and the cells'. */
  lemma StepKeepsInv(ttl: u64, s: State, a: Action)
    requires Inv(ttl, s) && Enabled(s, a)
    ensures Inv(ttl, Apply(ttl, s, a))
  {
    StepKeepsProtocol(ttl, s, a);
    StepKeepsData(ttl, s, a);
  }

  lemma MoveKeepsData(ttl: u64, s: State, a: Action)
    requires DataInv(ttl, s) && Enabled(s, a) && Moves(a)
    ensures DataInv(ttl, Apply(ttl, s, a))
  {
    MoveKeepsCells(ttl, s, a);
    MoveKeepsTask(ttl, s, a);
    NoStoreKeepsData(ttl, s, Apply(ttl, s, a), a.t);
  }

  lemma LoadKeepsData(ttl: u64, s: State, t: TaskId)
    requires DataInv(ttl, s) && Enabled(s, Load(t))
    ensures DataInv(ttl, ApplyLoad(s, t))
  {
    LoadReadsHistory(ttl, s, t);
    NoStoreKeepsData(ttl, s, ApplyLoad(s, t), t);
  }

  lemma DecideKeepsData(ttl: u64, s: State, t: TaskId, now: u64)
    requires DataInv(ttl, s) && Enabled(s, Decide(t, now))
    ensures DataInv(ttl, ApplyDecide(ttl, s, t, now))
  {
    DecideServesHistory(ttl, s, t, now);
    NoStoreKeepsData(ttl, s, ApplyDecide(ttl, s, t, now), t);
  }

  lemma SpawnKeepsData(ttl: u64, s: State, t: TaskId, child: TaskId)
    requires DataInv(ttl, s) && Enabled(s, SpawnCleanup(t, child))
    ensures DataInv(ttl, Apply(ttl, s, SpawnCleanup(t, child)))
  {
    var s1 := Goto(s, t, Gone);
    NoStoreKeepsData(ttl, s, s1, t);
    NoStoreKeepsData(ttl, s1, Apply(ttl, s, SpawnCleanup(t, child)), child);
  }

  lemma StepKeepsData(ttl: u64, s: State, a: Action)
    requires Inv(ttl, s) && Enabled(s, a)
    ensures DataInv(ttl, Apply(ttl, s, a))
  {
    if Moves(a) {
      MoveKeepsData(ttl, s, a);
    } else if a.Load? {
      LoadKeepsData(ttl, s, a.t);
    } else if a.Decide? {
      DecideKeepsData(ttl, s, a.t, a.now);
    } else if a.Store? {
      StoreKeepsData(ttl, s, a.t, a.now);
    } else {
      SpawnKeepsData(ttl, s, a.t, a.child);
    }
  }

  lemma {:induction false} RunKeepsInv(ttl: u64, s: State, acts: seq<Action>, s': State)
    requires Inv(ttl, s) && Run(ttl, s, acts, s')
    ensures Inv(ttl, s')
    decreases |acts|
  {
    if acts != [] {
      StepKeepsInv(ttl, s, acts[0]);
      RunKeepsInv(ttl, Apply(ttl, s, acts[0]), acts[1..], s');
    }
  }

  lemma ReachableInv(ttl: u64, s: State)
    requires Reachable(ttl, s)
    ensures Inv(ttl, s)
  {
    var value, acts :| Run(ttl, Init(value), acts, s);
    InitInv(value);
    RunKeepsInv(ttl, Init(value), acts, s);
  }
}
