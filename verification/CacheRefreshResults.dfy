/** What every run of the refresh protocol guarantees. */
module CacheRefreshResults {
  import opened Basics
  import opened CacheRefresh

  // ---- Single flight and ownership ----------------------------------------------

  /** At most one backend fetch is in flight per cache, and it belongs to the registered
      notification. */
  lemma SingleFlight(ttl: u64, s: State, t: TaskId, u: TaskId)
    requires Reachable(ttl, s)
    requires t in s.tasks && s.tasks[t].pc.Fetching?
    requires u in s.tasks && s.tasks[u].pc.Fetching?
    ensures t == u && s.entry == Some(s.tasks[t].pc.n)
  {
    ReachableInv(ttl, s);
    assert Owner(s, t, s.tasks[t].pc.n) && Owner(s, u, s.tasks[u].pc.n);
  }

  /** A registered notification belongs to exactly one armed leader or pending cleanup, unless
      its leader was dropped while the runtime was being torn down; and whatever a task is
      responsible for is the registered notification. */
  lemma RegisteredHasOneOwner(ttl: u64, s: State)
    requires Reachable(ttl, s)
    ensures s.entry.Some? ==>
              (s.entry.value in s.orphaned <==> !exists t :: Owner(s, t, s.entry.value))
    ensures forall t, n: NotifyId :: Owner(s, t, n) ==> s.entry == Some(n)
    ensures forall t, u, n: NotifyId, m: NotifyId :: Owner(s, t, n) && Owner(s, u, m) ==> t == u && n == m
  {
    ReachableInv(ttl, s);
  }

  /** A cleanup never removes another leader's entry: the entry it clears is its own, and that
      entry had no other owner. */
  lemma CleanupRemovesOnlyItsOwn(ttl: u64, s: State, t: TaskId)
    requires Reachable(ttl, s) && Enabled(s, Remove(t))
    ensures s.entry == Some(s.tasks[t].pc.n)
    ensures Apply(ttl, s, Remove(t)).entry == None
    ensures forall u, n: NotifyId :: !Owner(Apply(ttl, s, Remove(t)), u, n)
  {
    ReachableInv(ttl, s);
    assert Owner(s, t, s.tasks[t].pc.n);
    RemoveKeepsInv(s, t);
  }

  // ---- No wakeup is lost --------------------------------------------------------

  /** A parked waiter has been notified since it was created, or someone is still going to
      notify it, or its notification is an orphan of runtime teardown. */
  lemma NoWakeupIsLost(ttl: u64, s: State, t: TaskId)
    requires Reachable(ttl, s) && t in s.tasks && s.tasks[t].pc.Parked?
    ensures var n := s.tasks[t].pc.n;
            || n in s.orphaned
            || (n < |s.fired| && s.fired[n] > s.tasks[t].pc.epoch)
            || (exists u :: Owner(s, u, n))
            || (exists u :: Notifier(s, u, n))
  {
    ReachableInv(ttl, s);
    assert WaiterOk(s, s.tasks[t].pc.n, s.tasks[t].pc.epoch);
  }

  lemma FiredStepStaysUnregistered(ttl: u64, s: State, a: Action, n: NotifyId)
    requires ProtocolInv(s) && Enabled(s, a)
    requires n < |s.fired| && s.fired[n] > 0 && n !in s.orphaned
    ensures var s' := Apply(ttl, s, a);
            n < |s'.fired| && s'.fired[n] > 0 && n !in s'.orphaned && s'.entry != Some(n)
  {
    if a.TearDown? {
      assert Owner(s, a.t, s.tasks[a.t].pc.n);
    }
  }

  /** Once a notification has fired it is never registered again, so a waiter it woke can never
      come to wait on it a second time. */
  lemma {:induction false} FiredIsNeverRegisteredAgain(ttl: u64, s: State, acts: seq<Action>, s': State, n: NotifyId)
    requires Inv(ttl, s) && Run(ttl, s, acts, s')
    requires n < |s.fired| && s.fired[n] > 0 && n !in s.orphaned
    ensures s'.entry != Some(n)
    ensures forall u :: Enabled(s', TakeRole(u)) ==>
              var pc := Apply(ttl, s', TakeRole(u)).tasks[u].pc; pc.Parked? ==> pc.n != n
    decreases |acts|
  {
    if acts != [] {
      StepKeepsInv(ttl, s, acts[0]);
      FiredStepStaysUnregistered(ttl, s, acts[0], n);
      FiredIsNeverRegisteredAgain(ttl, Apply(ttl, s, acts[0]), acts[1..], s', n);
    }
  }

  // ---- What is served -----------------------------------------------------------

  /** A value served without fetching was stored by the refresh whose timestamp was loaded and
      passed the TTL check, or by a later one. */
  lemma ServedValueIsFromCheckedRefreshOrLater(ttl: u64, s: State, t: TaskId)
    requires Reachable(ttl, s)
    requires t in s.tasks && s.tasks[t].pc.Returned? && s.tasks[t].pc.outcome.Served?
    ensures var o := s.tasks[t].pc.outcome;
            var checked, source := o.seen.stamps - 1, o.seen.values - 1;
            && 0 <= checked < |s.stamps| && checked <= source < |s.log|
            && s.stamps[checked] == o.stamp && o.stamp != 0 && SaturatingSub(o.now, o.stamp) <= ttl
            && s.log[source].value == o.value
  {
    ReachableInv(ttl, s);
    assert TaskInv(ttl, s, s.tasks[t]);
  }

  /** A height read without tearing, that is with the value and the slot of the same refresh,
      was fetched for the requested slot or for a request that named none. */
  lemma UntornHeightBelongsToSlot(ttl: u64, s: State, t: TaskId)
    requires Reachable(ttl, s)
    requires t in s.tasks && s.tasks[t].pc.Returned? && s.tasks[t].pc.outcome.Served?
    requires s.tasks[t].pc.outcome.seen.values == s.tasks[t].pc.outcome.seen.slots
    ensures var o := s.tasks[t].pc.outcome;
            && 0 < o.seen.values <= |s.log|
            && s.log[o.seen.values - 1].value == o.value
            && Matches(s.log[o.seen.values - 1].slot, s.tasks[t].slot)
  {
    ReachableInv(ttl, s);
    assert TaskInv(ttl, s, s.tasks[t]);
  }

  // ---- Exactly when a served height belongs to the requested slot ------------------

  /** A height fetched for `slot` answers a request for `requested`. */
  predicate Matches(slot: u64, requested: u64) {
    slot == requested || slot == UNKNOWN_SLOT
  }

  ghost predicate BetweenStores(s: State, u: TaskId) {
    u in s.tasks && s.tasks[u].pc.StoreSlot?
  }

  /** The height in the value cell was fetched for the slot of the refresh that stands between
      its value store and its slot store, and if there is none, for the slot in the slot cell. */
  ghost predicate CellMatches(s: State, requested: u64) {
    && (forall u :: BetweenStores(s, u) ==> Matches(s.tasks[u].slot, requested))
    && ((forall u :: !BetweenStores(s, u)) ==> Matches(s.slot, requested))
  }

  lemma LatestHeightMatchesIff(ttl: u64, s: State, requested: u64)
    requires Inv(ttl, s) && s.log != []
    ensures s.value == s.log[|s.log| - 1].value
    ensures Matches(s.log[|s.log| - 1].slot, requested) <==> CellMatches(s, requested)
  {
    if u :| BetweenStores(s, u) {
      assert Storing(s, u) && Owner(s, u, s.tasks[u].pc.n);
      assert forall v :: BetweenStores(s, v) ==> Owner(s, v, s.tasks[v].pc.n);
    } else {
      assert forall u :: Storing(s, u) ==> BetweenStores(s, u) || s.tasks[u].pc.StoreStamp?;
    }
  }

  /** `t` carries the value and timestamp it has loaded, or has given up on them. */
  predicate Carries(pc: Pc, val: u64, stamp: u64) {
    match pc
    case LoadSlot(_, st, v, _) => v == val && st == stamp
    case Judge(_, st, v, _, _) => v == val && st == stamp
    case Returned(o) => o.Served? && o.value == val && o.stamp == stamp
    case WantLock => true
    case Elect => true
    case _ => false
  }

  ghost predicate OnlyReads(acts: seq<Action>, t: TaskId) {
    forall a :: a in acts && a.t == t ==> a.Load? || a.Decide?
  }

  lemma {:induction false} ReadCarries(ttl: u64, s: State, acts: seq<Action>, s': State,
                                       t: TaskId, val: u64, stamp: u64)
    requires Run(ttl, s, acts, s') && OnlyReads(acts, t)
    requires t in s.tasks && Carries(s.tasks[t].pc, val, stamp)
    ensures t in s'.tasks && s'.tasks[t].slot == s.tasks[t].slot && Carries(s'.tasks[t].pc, val, stamp)
    decreases |acts|
  {
    if acts != [] {
      assert acts[0] in acts;
      var next := Apply(ttl, s, acts[0]);
      assert t in next.tasks && next.tasks[t].slot == s.tasks[t].slot && Carries(next.tasks[t].pc, val, stamp);
      ReadCarries(ttl, next, acts[1..], s', t, val, stamp);
    }
  }

  /** Exactly when a served height belongs to the requested slot, whatever other tasks do in the
      meantime: `t` loads the value cell in `s`, and this very read ends up served. The height is
      that of the latest refresh at `s`, and it was fetched for the requested slot if and only if
      the refresh that stood between its two stores at `s` asked for it or, if there was none, the
      slot cell held it already at `s`. */
  lemma HeightBelongsIff(ttl: u64, s: State, acts: seq<Action>, s': State, t: TaskId)
    requires Reachable(ttl, s) && t in s.tasks && s.tasks[t].pc.LoadValue?
    requires Run(ttl, Apply(ttl, s, Load(t)), acts, s') && OnlyReads(acts, t)
    requires t in s'.tasks && s'.tasks[t].pc.Returned? && s'.tasks[t].pc.outcome.Served?
    ensures s.log != [] && s'.tasks[t].pc.outcome.value == s.log[|s.log| - 1].value
    ensures Matches(s.log[|s.log| - 1].slot, s.tasks[t].slot) <==> CellMatches(s, s.tasks[t].slot)
  {
    ReachableInv(ttl, s);
    StepKeepsInv(ttl, s, Load(t));
    RunKeepsInv(ttl, Apply(ttl, s, Load(t)), acts, s');
    ReadCarries(ttl, Apply(ttl, s, Load(t)), acts, s', t, s.value, s.tasks[t].pc.stamp);
    assert TaskInv(ttl, s, s.tasks[t]) && TaskInv(ttl, s', s'.tasks[t]);
    LatestHeightMatchesIff(ttl, s, s.tasks[t].slot);
  }

  /** What `t` has read of the value and slot cells is what they hold now. */
  ghost predicate ReadsCurrent(s: State, t: TaskId) {
    && t in s.tasks
    && (s.tasks[t].pc.LoadSlot? ==> s.tasks[t].pc.val == s.value)
    && (s.tasks[t].pc.Judge? ==> s.tasks[t].pc.val == s.value && s.tasks[t].pc.slot == s.slot)
  }

  lemma QuietStepReadsCurrent(ttl: u64, s: State, a: Action, t: TaskId)
    requires Enabled(s, a) && !a.Store? && ReadsCurrent(s, t)
    ensures SameCells(s, Apply(ttl, s, a))
    ensures ReadsCurrent(Apply(ttl, s, a), t) && Apply(ttl, s, a).tasks[t].slot == s.tasks[t].slot
  {
  }

  lemma {:induction false} QuietRunReadsCurrent(ttl: u64, s: State, acts: seq<Action>, s': State, t: TaskId)
    requires Run(ttl, s, acts, s') && (forall a :: a in acts ==> !a.Store?) && ReadsCurrent(s, t)
    ensures ReadsCurrent(s', t) && SameCells(s, s') && s'.tasks[t].slot == s.tasks[t].slot
    decreases |acts|
  {
    if acts != [] {
      assert acts[0] in acts;
      QuietStepReadsCurrent(ttl, s, acts[0], t);
      QuietRunReadsCurrent(ttl, Apply(ttl, s, acts[0]), acts[1..], s', t);
    }
  }

  /** The same for a reader whose loads no store interrupts: about to be served, it has the height
      of the latest refresh, fetched for the requested slot if and only if no refresh of another
      slot stands between its value store and its slot store. */
  lemma QuietHeightBelongsIff(ttl: u64, s: State, acts: seq<Action>, s': State, t: TaskId, now: u64)
    requires Reachable(ttl, s) && Run(ttl, s, acts, s') && forall a :: a in acts ==> !a.Store?
    requires t in s.tasks && s.tasks[t].pc.LoadValue?
    requires t in s'.tasks && s'.tasks[t].pc.Judge?
    requires var pc := s'.tasks[t].pc; Fresh(ttl, now, pc.stamp, pc.slot, s'.tasks[t].slot)
    ensures s'.log != [] && s'.tasks[t].pc.val == s'.log[|s'.log| - 1].value
    ensures Matches(s'.log[|s'.log| - 1].slot, s.tasks[t].slot) <==>
              forall u :: BetweenStores(s, u) ==> Matches(s.tasks[u].slot, s.tasks[t].slot)
  {
    StampMeansRefresh(ttl, s, acts, s', t);
    QuietRunReadsCurrent(ttl, s, acts, s', t);
    MatchingCellBelongsIff(ttl, s, s.tasks[t].slot);
  }

  lemma MatchingCellBelongsIff(ttl: u64, s: State, requested: u64)
    requires Reachable(ttl, s) && s.log != [] && Matches(s.slot, requested)
    ensures s.value == s.log[|s.log| - 1].value
    ensures Matches(s.log[|s.log| - 1].slot, requested) <==>
              forall u :: BetweenStores(s, u) ==> Matches(s.tasks[u].slot, requested)
  {
    ReachableInv(ttl, s);
    LatestHeightMatchesIff(ttl, s, requested);
  }

  lemma StampMeansRefresh(ttl: u64, s: State, acts: seq<Action>, s': State, t: TaskId)
    requires Reachable(ttl, s) && Run(ttl, s, acts, s')
    requires t in s'.tasks && s'.tasks[t].pc.Judge? && s'.tasks[t].pc.stamp != 0
    ensures s'.log != []
  {
    ReachableInv(ttl, s);
    RunKeepsInv(ttl, s, acts, s');
    assert TaskInv(ttl, s', s'.tasks[t]);
  }

  predicate AboutToStore(pc: Pc) {
    pc.StoreValue? || pc.StoreSlot? || pc.StoreStamp?
  }

  /** Refreshes that fail or are cancelled leave the cells alone: without a successful fetch,
      and with no store under way, a run changes none of them. */
  lemma {:induction false} OnlySuccessfulFetchesStore(ttl: u64, s: State, acts: seq<Action>, s': State)
    requires Run(ttl, s, acts, s')
    requires forall a :: a in acts ==> !a.FetchOk?
    requires forall t :: t in s.tasks ==> !AboutToStore(s.tasks[t].pc)
    ensures SameCells(s, s')
    decreases |acts|
  {
    if acts != [] {
      assert acts[0] in acts;
      NoStoreWithoutSuccess(ttl, s, acts[0]);
      OnlySuccessfulFetchesStore(ttl, Apply(ttl, s, acts[0]), acts[1..], s');
    }
  }

  lemma NoStoreWithoutSuccess(ttl: u64, s: State, a: Action)
    requires Enabled(s, a) && !a.FetchOk?
    requires forall t :: t in s.tasks ==> !AboutToStore(s.tasks[t].pc)
    ensures SameCells(s, Apply(ttl, s, a))
    ensures forall t :: t in Apply(ttl, s, a).tasks ==> !AboutToStore(Apply(ttl, s, a).tasks[t].pc)
  {
  }

  // ---- Composing runs -----------------------------------------------------------

  lemma {:induction false} RunConcat(ttl: u64, s: State, first: seq<Action>, mid: State, second: seq<Action>, s': State)
    requires Run(ttl, s, first, mid) && Run(ttl, mid, second, s')
    ensures Run(ttl, s, first + second, s')
    decreases |first|
  {
    if first == [] {
      assert first + second == second;
    } else {
      RunConcat(ttl, Apply(ttl, s, first[0]), first[1..], mid, second, s');
      assert (first + second)[1..] == first[1..] + second;
    }
  }

  lemma RunCons(ttl: u64, s: State, a: Action, rest: seq<Action>, s': State)
    requires Enabled(s, a) && Run(ttl, Apply(ttl, s, a), rest, s')
    ensures Run(ttl, s, [a] + rest, s')
  {
    assert ([a] + rest)[1..] == rest;
  }

  lemma ReachableRun(ttl: u64, s: State, acts: seq<Action>, s': State)
    requires Reachable(ttl, s) && Run(ttl, s, acts, s')
    ensures Reachable(ttl, s')
  {
    var value, before :| Run(ttl, Init(value), before, s);
    RunConcat(ttl, Init(value), before, s, acts, s');
  }

  // ---- A waiter can be woken exactly when its notification is not an orphan -------

  lemma {:induction false} FreshTask(ids: set<TaskId>) returns (id: TaskId)
    ensures forall t :: t in ids ==> t < id
  {
    if ids == {} {
      id := 0;
    } else {
      var t :| t in ids;
      var bound := FreshTask(ids - {t});
      id := if bound <= t then t + 1 else bound;
      assert forall x :: x in ids ==> x == t || x in ids - {t};
    }
  }

  function OwnerRank(pc: Pc): nat {
    match pc
    case LoadHint(_) => 8
    case Fetching(_) => 7
    case StoreValue(_, _) => 6
    case StoreSlot(_, _) => 5
    case StoreStamp(_, _) => 4
    case WantRemove(_, who) => if who.Destructor? then 3 else 2
    case _ => 1
  }

  function HolderRank(s: State): nat {
    if s.holder.None? || s.holder.value !in s.tasks then 0
    else match s.tasks[s.holder.value].pc
      case LoadStamp(_) => 5
      case LoadValue(_, _, _) => 4
      case LoadSlot(_, _, _, _) => 3
      case Judge(_, _, _, _, _) => 2
      case _ => 1
  }

  ghost predicate WaitsFor(s: State, t: TaskId, n: NotifyId, epoch: nat) {
    t in s.tasks && s.tasks[t].pc == Parked(n, epoch) && n !in s.orphaned
  }

  ghost predicate Woken(s: State, t: TaskId, n: NotifyId, epoch: nat) {
    t in s.tasks && s.tasks[t].pc == Parked(n, epoch) && n < |s.fired| && s.fired[n] > epoch
  }

  /** The step that brings the owner `u`, or the lock holder in its way, closer to notifying. */
  function Unblock(s: State, u: TaskId, child: TaskId): Action
    requires u in s.tasks
  {
    match s.tasks[u].pc
    case LoadHint(_) => StartFetch(u)
    case Fetching(_) => FetchErr(u)
    case StoreValue(_, _) => Store(u, 0)
    case StoreSlot(_, _) => Store(u, 0)
    case StoreStamp(_, _) => Store(u, 0)
    case WantRemove(_, who) =>
      if s.holder.None? then LockToRemove(u)
      else if who.Destructor? then SpawnCleanup(u, child)
      else if s.holder.value in s.tasks && s.tasks[s.holder.value].pc.Judge? then Decide(s.holder.value, 0)
      else if s.holder.value in s.tasks && s.tasks[s.holder.value].pc.Elect? then TakeRole(s.holder.value)
      else Load(s.holder.value)
    case _ => Remove(u)
  }

  /** The waiter still waits, and its owner is a step closer to notifying it. */
  ghost predicate Progress(s: State, s': State, t: TaskId, n: NotifyId, epoch: nat, u: TaskId, u': TaskId)
    requires u in s.tasks
  {
    && WaitsFor(s', t, n, epoch)
    && (Notifier(s', u', n)
        || (Owner(s', u', n)
            && (OwnerRank(s'.tasks[u'].pc) < OwnerRank(s.tasks[u].pc)
                || (OwnerRank(s'.tasks[u'].pc) == OwnerRank(s.tasks[u].pc) && HolderRank(s') < HolderRank(s)))))
  }

  lemma OwnerMovesOn(ttl: u64, s: State, t: TaskId, n: NotifyId, epoch: nat, u: TaskId, child: TaskId)
    requires ProtocolInv(s) && WaitsFor(s, t, n, epoch) && Owner(s, u, n)
    requires s.tasks[u].pc.WantRemove? ==> s.holder.None?
    ensures Enabled(s, Unblock(s, u, child))
    ensures Progress(s, Apply(ttl, s, Unblock(s, u, child)), t, n, epoch, u, u)
  {
    var a := Unblock(s, u, child);
    var s' := Apply(ttl, s, a);
    assert s'.tasks[t] == s.tasks[t] && s'.orphaned == s.orphaned;
    assert Owns(s'.tasks[u].pc) == Some(n) || Fires(s'.tasks[u].pc) == Some(n);
  }

  lemma DestructorSpawns(ttl: u64, s: State, t: TaskId, n: NotifyId, epoch: nat, u: TaskId, child: TaskId)
    requires Inv(ttl, s) && WaitsFor(s, t, n, epoch) && Owner(s, u, n) && child !in s.tasks
    requires s.tasks[u].pc.WantRemove? && s.tasks[u].pc.who.Destructor? && s.holder.Some?
    ensures Enabled(s, Unblock(s, u, child))
    ensures Progress(s, Apply(ttl, s, Unblock(s, u, child)), t, n, epoch, u, child)
  {
    var s' := Apply(ttl, s, SpawnCleanup(u, child));
    assert s'.tasks[t] == s.tasks[t];
    assert Owner(s', child, n);
  }

  /** The lock holder never waits: it moves on to unlocking. */
  lemma HolderMovesOn(ttl: u64, s: State, t: TaskId, n: NotifyId, epoch: nat, u: TaskId, child: TaskId)
    requires Inv(ttl, s) && WaitsFor(s, t, n, epoch) && Owner(s, u, n)
    requires s.tasks[u].pc.WantRemove? && !s.tasks[u].pc.who.Destructor? && s.holder.Some?
    ensures Enabled(s, Unblock(s, u, child))
    ensures Progress(s, Apply(ttl, s, Unblock(s, u, child)), t, n, epoch, u, u)
  {
    var h := s.holder.value;
    assert HoldsLock(s.tasks[h].pc) && h != u && h != t;
    if s.tasks[h].pc.Removing? {
      assert Owner(s, h, s.tasks[h].pc.n);
      assert false;
    }
    var a := Unblock(s, u, child);
    assert s.entry == Some(n) && a.t == h;
    var s' := Apply(ttl, s, a);
    assert s'.tasks[t] == s.tasks[t] && s'.tasks[u] == s.tasks[u] && s'.orphaned == s.orphaned;
    assert Owner(s', u, n);
  }

  /** Each unblocking step is enabled, leaves the waiter alone, and makes progress. */
  lemma UnblockStep(ttl: u64, s: State, t: TaskId, n: NotifyId, epoch: nat, u: TaskId, child: TaskId)
    returns (u': TaskId)
    requires Inv(ttl, s) && WaitsFor(s, t, n, epoch) && Owner(s, u, n) && child !in s.tasks
    ensures Enabled(s, Unblock(s, u, child))
    ensures Progress(s, Apply(ttl, s, Unblock(s, u, child)), t, n, epoch, u, u')
  {
    if !s.tasks[u].pc.WantRemove? || s.holder.None? {
      u' := u;
      OwnerMovesOn(ttl, s, t, n, epoch, u, child);
    } else if s.tasks[u].pc.who.Destructor? {
      u' := child;
      DestructorSpawns(ttl, s, t, n, epoch, u, child);
    } else {
      u' := u;
      HolderMovesOn(ttl, s, t, n, epoch, u, child);
    }
  }

  lemma {:induction false} WakeByOwner(ttl: u64, s: State, t: TaskId, n: NotifyId, epoch: nat, u: TaskId)
    returns (acts: seq<Action>, s': State)
    requires Inv(ttl, s) && WaitsFor(s, t, n, epoch) && Owner(s, u, n)
    ensures Run(ttl, s, acts, s') && Woken(s', t, n, epoch)
    decreases OwnerRank(s.tasks[u].pc), HolderRank(s)
  {
    var child := FreshTask(s.tasks.Keys);
    var a := Unblock(s, u, child);
    var u' := UnblockStep(ttl, s, t, n, epoch, u, child);
    var s1 := Apply(ttl, s, a);
    StepKeepsInv(ttl, s, a);
    var rest;
    if Notifier(s1, u', n) {
      rest, s' := WakeByNotifier(ttl, s1, t, n, epoch, u');
    } else {
      rest, s' := WakeByOwner(ttl, s1, t, n, epoch, u');
    }
    acts := [a] + rest;
    RunCons(ttl, s, a, rest, s');
  }

  lemma WakeByNotifier(ttl: u64, s: State, t: TaskId, n: NotifyId, epoch: nat, u: TaskId)
    returns (acts: seq<Action>, s': State)
    requires Inv(ttl, s) && WaitsFor(s, t, n, epoch) && Notifier(s, u, n)
    ensures Run(ttl, s, acts, s') && Woken(s', t, n, epoch)
  {
    s' := Apply(ttl, s, Notify(u));
    assert WaiterOk(s, n, epoch);
    acts := [Notify(u)] + [];
    RunCons(ttl, s, Notify(u), [], s');
  }

  ghost predicate CanBeWoken(ttl: u64, s: State, t: TaskId, n: NotifyId, epoch: nat) {
    exists acts, s' :: Run(ttl, s, acts, s') && Woken(s', t, n, epoch)
  }

  lemma OrphanStep(ttl: u64, s: State, a: Action, n: NotifyId)
    requires ProtocolInv(s) && Enabled(s, a) && n in s.orphaned
    ensures n in Apply(ttl, s, a).orphaned
    ensures n < |s.fired| && n < |Apply(ttl, s, a).fired| && Apply(ttl, s, a).fired[n] == s.fired[n]
  {
    if a.TearDown? {
      assert Owner(s, a.t, s.tasks[a.t].pc.n);
    }
    if a.Notify? {
      assert Notifier(s, a.t, s.tasks[a.t].pc.n);
    }
  }

  lemma {:induction false} OrphanNeverFires(ttl: u64, s: State, acts: seq<Action>, s': State, n: NotifyId)
    requires Inv(ttl, s) && Run(ttl, s, acts, s') && n in s.orphaned
    ensures n < |s.fired| && n < |s'.fired| && s'.fired[n] == s.fired[n]
    decreases |acts|
  {
    if acts != [] {
      OrphanStep(ttl, s, acts[0], n);
      StepKeepsInv(ttl, s, acts[0]);
      OrphanNeverFires(ttl, Apply(ttl, s, acts[0]), acts[1..], s', n);
    }
  }

  /** From every reachable state, a waiter that has not been notified yet can still be woken if
      and only if its notification is not an orphan of runtime teardown. */
  lemma WaiterCanBeWokenUnlessOrphaned(ttl: u64, s: State, t: TaskId)
    requires Reachable(ttl, s) && t in s.tasks && s.tasks[t].pc.Parked?
    requires !Woken(s, t, s.tasks[t].pc.n, s.tasks[t].pc.epoch)
    ensures CanBeWoken(ttl, s, t, s.tasks[t].pc.n, s.tasks[t].pc.epoch) <==> s.tasks[t].pc.n !in s.orphaned
  {
    ReachableInv(ttl, s);
    var n, epoch := s.tasks[t].pc.n, s.tasks[t].pc.epoch;
    assert WaiterOk(s, n, epoch);
    if n !in s.orphaned {
      var acts, s';
      if s.entry == Some(n) {
        var u :| Owner(s, u, n);
        acts, s' := WakeByOwner(ttl, s, t, n, epoch, u);
      } else {
        var u :| Notifier(s, u, n);
        acts, s' := WakeByNotifier(ttl, s, t, n, epoch, u);
      }
    } else if CanBeWoken(ttl, s, t, n, epoch) {
      var acts, s' :| Run(ttl, s, acts, s') && Woken(s', t, n, epoch);
      OrphanNeverFires(ttl, s, acts, s', n);
      assert false;
    }
  }
}
