/** What callers of the refresh protocol get, in terms of the actions of the run. */
module CacheRefreshOutcomes {
  import opened Basics
  import opened CacheRefresh

  // ---- Where an outcome comes from --------------------------------------------------

  ghost predicate TookInOrder(acts: seq<Action>, first: Action, second: Action) {
    exists i, j :: 0 <= i < j < |acts| && acts[i] == first && acts[j] == second
  }

  /** A fetched value is what the task's own fetch returned, and has gone into the cells under the
      task's slot; a failure is the task's own failed fetch. */
  ghost predicate Earned(acts: seq<Action>, s: State, t: TaskId, slot: u64, o: Outcome) {
    match o
    case Fetched(v) => TookInOrder(acts, StartFetch(t), FetchOk(t, v)) && Refresh(slot, v) in s.log
    case Failed => TookInOrder(acts, StartFetch(t), FetchErr(t))
    case Served(_, _, _, _) => true
  }

  ghost predicate Sanctioned(acts: seq<Action>, s: State, t: TaskId, slot: u64, who: Remover) {
    match who
    case Finish(o) => Earned(acts, s, t, slot, o)
    case Destructor => Cancel(t) in acts
    case Spawned => exists u :: SpawnCleanup(u, t) in acts
  }

  ghost predicate Dropped(acts: seq<Action>, t: TaskId) {
    Cancel(t) in acts || exists u :: SpawnCleanup(u, t) in acts
  }

  ghost predicate History(acts: seq<Action>, s: State, t: TaskId, task: Task) {
    match task.pc
    case Fetching(_) => StartFetch(t) in acts
    case StoreValue(_, v) => TookInOrder(acts, StartFetch(t), FetchOk(t, v))
    case StoreSlot(_, v) => Earned(acts, s, t, task.slot, Fetched(v))
    case StoreStamp(_, v) => Earned(acts, s, t, task.slot, Fetched(v))
    case WantRemove(_, who) => Sanctioned(acts, s, t, task.slot, who)
    case Removing(_, who) => Sanctioned(acts, s, t, task.slot, who)
    case Notifying(_, who) => Sanctioned(acts, s, t, task.slot, who)
    case Returned(o) => Earned(acts, s, t, task.slot, o)
    case Gone => Dropped(acts, t)
    case _ => true
  }

  lemma OrderGrows(acts: seq<Action>, a: Action, first: Action, second: Action)
    ensures TookInOrder(acts, first, second) ==> TookInOrder(acts + [a], first, second)
    ensures first in acts && a == second ==> TookInOrder(acts + [a], first, second)
  {
    if TookInOrder(acts, first, second) {
      var i, j :| 0 <= i < j < |acts| && acts[i] == first && acts[j] == second;
      assert (acts + [a])[i] == first && (acts + [a])[j] == second;
    }
    if first in acts && a == second {
      var i :| 0 <= i < |acts| && acts[i] == first;
      assert (acts + [a])[i] == first && (acts + [a])[|acts|] == second;
    }
  }

  lemma SpawnedGrows(acts: seq<Action>, a: Action, t: TaskId)
    ensures (exists u :: SpawnCleanup(u, t) in acts) ==> exists u :: SpawnCleanup(u, t) in acts + [a]
  {
    if u :| SpawnCleanup(u, t) in acts {
      assert SpawnCleanup(u, t) in acts + [a];
    }
  }

  lemma EarnedGrows(acts: seq<Action>, a: Action, s: State, s': State, t: TaskId, slot: u64, o: Outcome)
    requires Earned(acts, s, t, slot, o) && forall r :: r in s.log ==> r in s'.log
    ensures Earned(acts + [a], s', t, slot, o)
  {
    match o
    case Fetched(v) => OrderGrows(acts, a, StartFetch(t), FetchOk(t, v));
    case Failed => OrderGrows(acts, a, StartFetch(t), FetchErr(t));
    case _ =>
  }

  lemma SanctionedGrows(acts: seq<Action>, a: Action, s: State, s': State, t: TaskId, slot: u64, who: Remover)
    requires Sanctioned(acts, s, t, slot, who) && forall r :: r in s.log ==> r in s'.log
    ensures Sanctioned(acts + [a], s', t, slot, who)
  {
    match who
    case Finish(o) => EarnedGrows(acts, a, s, s', t, slot, o);
    case Destructor =>
    case Spawned => SpawnedGrows(acts, a, t);
  }

  /** What a task has done stays done. */
  lemma HistoryGrows(acts: seq<Action>, a: Action, s: State, s': State, t: TaskId, task: Task)
    requires History(acts, s, t, task) && forall r :: r in s.log ==> r in s'.log
    ensures History(acts + [a], s', t, task)
  {
    match task.pc
    case StoreValue(_, v) => OrderGrows(acts, a, StartFetch(t), FetchOk(t, v));
    case StoreSlot(_, v) => EarnedGrows(acts, a, s, s', t, task.slot, Fetched(v));
    case StoreStamp(_, v) => EarnedGrows(acts, a, s, s', t, task.slot, Fetched(v));
    case WantRemove(_, who) => SanctionedGrows(acts, a, s, s', t, task.slot, who);
    case Removing(_, who) => SanctionedGrows(acts, a, s, s', t, task.slot, who);
    case Notifying(_, who) => SanctionedGrows(acts, a, s, s', t, task.slot, who);
    case Returned(o) => EarnedGrows(acts, a, s, s', t, task.slot, o);
    case Gone => SpawnedGrows(acts, a, t);
    case _ =>
  }

  ghost predicate Histories(acts: seq<Action>, s: State) {
    forall t :: t in s.tasks ==> History(acts, s, t, s.tasks[t])
  }

  lemma LogGrows(ttl: u64, s: State, a: Action)
    requires Enabled(s, a)
    ensures forall r :: r in s.log ==> r in Apply(ttl, s, a).log
  {
  }

  /** The acting task's own step. */
  lemma ActorHistory(ttl: u64, acts: seq<Action>, s: State, a: Action)
    requires Enabled(s, a) && (a.t in s.tasks ==> History(acts, s, a.t, s.tasks[a.t]))
    ensures a.t in Apply(ttl, s, a).tasks
    ensures History(acts + [a], Apply(ttl, s, a), a.t, Apply(ttl, s, a).tasks[a.t])
  {
    var s', t := Apply(ttl, s, a), a.t;
    LogGrows(ttl, s, a);
    if t in s.tasks {
      HistoryGrows(acts, a, s, s', t, s.tasks[t]);
    }
    match a {
      case FetchOk(_, v) => OrderGrows(acts, a, StartFetch(t), a);
      case FetchErr(_) => OrderGrows(acts, a, StartFetch(t), a);
      case _ =>
    }
  }

  lemma StepKeepsHistories(ttl: u64, acts: seq<Action>, s: State, a: Action)
    requires Histories(acts, s) && Enabled(s, a)
    ensures Histories(acts + [a], Apply(ttl, s, a))
  {
    var s' := Apply(ttl, s, a);
    ActorHistory(ttl, acts, s, a);
    LogGrows(ttl, s, a);
    forall t | t in s'.tasks ensures History(acts + [a], s', t, s'.tasks[t]) {
      if t != a.t {
        if a.SpawnCleanup? && t == a.child {
          assert SpawnCleanup(a.t, t) in acts + [a];
        } else {
          HistoryGrows(acts, a, s, s', t, s.tasks[t]);
        }
      }
    }
  }

  lemma {:induction false} RunKeepsHistories(ttl: u64, before: seq<Action>, s: State, acts: seq<Action>, s': State)
    requires Histories(before, s) && Run(ttl, s, acts, s')
    ensures Histories(before + acts, s')
    decreases |acts|
  {
    if acts == [] {
      assert before + acts == before;
    } else {
      StepKeepsHistories(ttl, before, s, acts[0]);
      RunKeepsHistories(ttl, before + [acts[0]], Apply(ttl, s, acts[0]), acts[1..], s');
      assert before + [acts[0]] + acts[1..] == before + acts;
    }
  }

  /** In every run: a task that ends with a fetched value led a refresh whose fetch returned that
      value, and stored it; one that ends in failure led a refresh whose fetch failed; and none
      disappears unless it was cancelled or is a spawned cleanup. */
  lemma OutcomesAreEarned(ttl: u64, value: u64, acts: seq<Action>, s: State, t: TaskId)
    requires Run(ttl, Init(value), acts, s) && t in s.tasks
    ensures forall v :: s.tasks[t].pc == Returned(Fetched(v)) ==>
              TookInOrder(acts, StartFetch(t), FetchOk(t, v)) && Refresh(s.tasks[t].slot, v) in s.log
    ensures s.tasks[t].pc == Returned(Failed) ==> TookInOrder(acts, StartFetch(t), FetchErr(t))
    ensures s.tasks[t].pc.Gone? ==> Dropped(acts, t)
  {
    RunKeepsHistories(ttl, [], Init(value), acts, s);
    assert [] + acts == acts;
    assert History(acts, s, t, s.tasks[t]);
  }

  // ---- What a fetch leads to -----------------------------------------------------------

  /** The leader is on its way to returning `o`, or has returned it. */
  ghost predicate Bound(pc: Pc, o: Outcome) {
    match pc
    case StoreValue(_, v) => o == Fetched(v)
    case StoreSlot(_, v) => o == Fetched(v)
    case StoreStamp(_, v) => o == Fetched(v)
    case WantRemove(_, who) => who == Finish(o)
    case Removing(_, who) => who == Finish(o)
    case Notifying(_, who) => who == Finish(o)
    case Returned(r) => r == o
    case _ => false
  }

  lemma StepStaysBound(ttl: u64, s: State, a: Action, t: TaskId, o: Outcome)
    requires Enabled(s, a) && a != Cancel(t) && t in s.tasks && Bound(s.tasks[t].pc, o)
    ensures t in Apply(ttl, s, a).tasks && Bound(Apply(ttl, s, a).tasks[t].pc, o)
  {
    if a.t != t {
      assert Apply(ttl, s, a).tasks[t] == s.tasks[t];
    }
  }

  lemma {:induction false} BoundUnlessCancelled(ttl: u64, s: State, acts: seq<Action>, s': State, t: TaskId, o: Outcome)
    requires Run(ttl, s, acts, s') && Cancel(t) !in acts
    requires t in s.tasks && Bound(s.tasks[t].pc, o)
    ensures t in s'.tasks && Bound(s'.tasks[t].pc, o)
    decreases |acts|
  {
    if acts != [] {
      assert acts[0] in acts;
      StepStaysBound(ttl, s, acts[0], t, o);
      BoundUnlessCancelled(ttl, Apply(ttl, s, acts[0]), acts[1..], s', t, o);
    }
  }

  /** A leader whose fetch fails returns the failure, and one whose fetch succeeds returns the value,
      unless it is cancelled. */
  lemma FetchDecidesOutcome(ttl: u64, s: State, a: Action, acts: seq<Action>, s': State)
    requires Run(ttl, s, [a] + acts, s') && (a.FetchOk? || a.FetchErr?) && Cancel(a.t) !in acts
    requires a.t in s'.tasks && s'.tasks[a.t].pc.Returned?
    ensures s'.tasks[a.t].pc.outcome == if a.FetchOk? then Fetched(a.val) else Failed
  {
    var o := if a.FetchOk? then Fetched(a.val) else Failed;
    assert ([a] + acts)[0] == a && ([a] + acts)[1..] == acts;
    BoundUnlessCancelled(ttl, Apply(ttl, s, a), acts, s', a.t, o);
  }

  // ---- What is served was loaded after the call, the wake-up or the lock ------------------

  /** Whatever the task has loaded it loaded when the cells had seen at least these stores. */
  predicate LoadedSince(pc: Pc, least: Versions) {
    match pc
    case LoadValue(_, _, seen) => seen.stamps >= least.stamps
    case LoadSlot(_, _, _, seen) => seen.stamps >= least.stamps && seen.values >= least.values
    case Judge(_, _, _, _, seen) => NotOlder(seen, least)
    case Returned(o) => o.Served? ==> NotOlder(o.seen, least)
    case WantRemove(_, who) => who.Finish? ==> !who.outcome.Served?
    case Removing(_, who) => who.Finish? ==> !who.outcome.Served?
    case Notifying(_, who) => who.Finish? ==> !who.outcome.Served?
    case _ => true
  }

  predicate NotOlder(seen: Versions, least: Versions) {
    seen.stamps >= least.stamps && seen.values >= least.values && seen.slots >= least.slots
  }

  predicate Reached(s: State, least: Versions) {
    |s.stamps| >= least.stamps && |s.log| >= least.values && s.slotStores >= least.slots
  }

  lemma StepReaches(ttl: u64, s: State, a: Action, least: Versions)
    requires Enabled(s, a) && Reached(s, least)
    ensures Reached(Apply(ttl, s, a), least)
  {
  }

  lemma ActorLoadsSince(ttl: u64, s: State, a: Action, least: Versions)
    requires Enabled(s, a) && Reached(s, least) && (a.t in s.tasks ==> LoadedSince(s.tasks[a.t].pc, least))
    ensures a.t in Apply(ttl, s, a).tasks && LoadedSince(Apply(ttl, s, a).tasks[a.t].pc, least)
  {
  }

  lemma StepLoadsSince(ttl: u64, s: State, a: Action, t: TaskId, least: Versions)
    requires Enabled(s, a) && Reached(s, least) && (t in s.tasks ==> LoadedSince(s.tasks[t].pc, least))
    ensures Reached(Apply(ttl, s, a), least)
    ensures t in Apply(ttl, s, a).tasks ==> LoadedSince(Apply(ttl, s, a).tasks[t].pc, least)
  {
    StepReaches(ttl, s, a, least);
    if a.t == t {
      ActorLoadsSince(ttl, s, a, least);
    } else if t in s.tasks {
      assert Apply(ttl, s, a).tasks[t] == s.tasks[t];
    }
  }

  lemma {:induction false} RunLoadsSince(ttl: u64, s: State, acts: seq<Action>, s': State, t: TaskId, least: Versions)
    requires Run(ttl, s, acts, s') && Reached(s, least) && (t in s.tasks ==> LoadedSince(s.tasks[t].pc, least))
    ensures t in s'.tasks ==> LoadedSince(s'.tasks[t].pc, least)
    decreases |acts|
  {
    if acts != [] {
      StepLoadsSince(ttl, s, acts[0], t, least);
      RunLoadsSince(ttl, Apply(ttl, s, acts[0]), acts[1..], s', t, least);
    }
  }

  /** A value served to a caller that at `s` has not been called yet, is parked, or is still waiting
      for the lock, was loaded after `s`: no earlier load is reused. */
  lemma ServedValueIsLoadedAfresh(ttl: u64, s: State, acts: seq<Action>, s': State, t: TaskId)
    requires Run(ttl, s, acts, s')
    requires t in s.tasks ==> s.tasks[t].pc.Parked? || s.tasks[t].pc.WantLock?
    requires t in s'.tasks && s'.tasks[t].pc.Returned? && s'.tasks[t].pc.outcome.Served?
    ensures NotOlder(s'.tasks[t].pc.outcome.seen, Versions(|s.stamps|, |s.log|, s.slotStores))
  {
    RunLoadsSince(ttl, s, acts, s', t, Versions(|s.stamps|, |s.log|, s.slotStores));
  }

  // ---- The cells are checked before the lock and again under it ---------------------------

  ghost predicate Checked(acts: seq<Action>, t: TaskId) {
    exists now :: Decide(t, now) in acts
  }

  /** Not about to take a role, nor, unless it may, waiting for the lock. */
  predicate HoldsBack(pc: Pc, mayWait: bool) {
    !pc.Elect? && (mayWait || !pc.WantLock?)
  }

  lemma StepHoldsBack(ttl: u64, s: State, a: Action, t: TaskId, mayWait: bool)
    requires Enabled(s, a) && (t in s.tasks ==> HoldsBack(s.tasks[t].pc, mayWait))
    requires a.Decide? ==> a.t != t
    ensures t in Apply(ttl, s, a).tasks ==> HoldsBack(Apply(ttl, s, a).tasks[t].pc, mayWait)
  {
  }

  lemma {:induction false} UncheckedHoldsBack(ttl: u64, s: State, acts: seq<Action>, s': State,
                                              t: TaskId, mayWait: bool)
    requires Run(ttl, s, acts, s') && (t in s.tasks ==> HoldsBack(s.tasks[t].pc, mayWait))
    requires forall now :: Decide(t, now) !in acts
    ensures t in s'.tasks ==> HoldsBack(s'.tasks[t].pc, mayWait)
    decreases |acts|
  {
    if acts != [] {
      assert acts[0] in acts && forall a :: a in acts[1..] ==> a in acts;
      StepHoldsBack(ttl, s, acts[0], t, mayWait);
      UncheckedHoldsBack(ttl, Apply(ttl, s, acts[0]), acts[1..], s', t, mayWait);
    }
  }

  /** Nobody goes for the lock without having found the cells stale, nor, with the lock, for a role
      without having found them stale again. */
  lemma StaleIsCheckedTwice(ttl: u64, s: State, acts: seq<Action>, s': State, t: TaskId)
    requires Run(ttl, s, acts, s') && t in s'.tasks
    ensures (t in s.tasks ==> HoldsBack(s.tasks[t].pc, false)) && s'.tasks[t].pc.WantLock? ==> Checked(acts, t)
    ensures (t in s.tasks ==> HoldsBack(s.tasks[t].pc, true)) && s'.tasks[t].pc.Elect? ==> Checked(acts, t)
  {
    if forall now :: Decide(t, now) !in acts {
      if t in s.tasks ==> HoldsBack(s.tasks[t].pc, false) {
        UncheckedHoldsBack(ttl, s, acts, s', t, false);
      }
      if t in s.tasks ==> HoldsBack(s.tasks[t].pc, true) {
        UncheckedHoldsBack(ttl, s, acts, s', t, true);
      }
    }
  }

  /** The verdict, in plain arithmetic: cells are served exactly when they have ever been refreshed,
      not longer ago than the time to live, and for this slot or for none in particular. */
  lemma VerdictIsExact(ttl: u64, s: State, t: TaskId, now: u64, s': State)
    requires t in s.tasks && s.tasks[t].pc.Judge? && Run(ttl, s, [Decide(t, now)], s')
    ensures var Judge(locked, stamp, val, slot, seen) := s.tasks[t].pc;
            && t in s'.tasks
            && (s'.tasks[t].pc.Returned? <==>
                  stamp > 0 && now <= stamp + ttl && (slot == s.tasks[t].slot || slot == U64_MAX))
            && (s'.tasks[t].pc.Returned? ==> s'.tasks[t].pc.outcome == Served(val, stamp, now, seen))
            && (!s'.tasks[t].pc.Returned? ==> s'.tasks[t].pc == if locked then Elect else WantLock)
  {
    assert [Decide(t, now)][1..] == [];
  }

  // ---- Waiters come and go ------------------------------------------------------------------

  /** A notified waiter can go on, and starts over with the cells. */
  lemma NotifiedWaiterStartsOver(ttl: u64, s: State, t: TaskId)
    requires t in s.tasks && s.tasks[t].pc.Parked?
    requires var Parked(n, epoch) := s.tasks[t].pc; n < |s.fired| && s.fired[n] > epoch
    ensures Run(ttl, s, [Wake(t)], s.(tasks := s.tasks[t := Task(s.tasks[t].slot, LoadStamp(false))]))
  {
    assert [Wake(t)][1..] == [];
  }

  /** A caller that waits for the lock or for a refresh can be dropped, and leaves no trace. */
  lemma DroppedWaiterLeavesNoTrace(ttl: u64, s: State, t: TaskId)
    requires t in s.tasks && (s.tasks[t].pc.WantLock? || s.tasks[t].pc.Parked?)
    ensures Run(ttl, s, [Cancel(t)], s.(tasks := s.tasks[t := Task(s.tasks[t].slot, Gone)]))
  {
    assert [Cancel(t)][1..] == [];
  }
}
