/** Two promises the refresh protocol does not keep, each with the run that breaks it. */
module CacheRefreshRaces {
  import opened Basics
  import opened CacheRefresh
  import opened CacheRefreshResults

  lemma Then(ttl: u64, s: State, a: Action)
    requires Reachable(ttl, s) && Enabled(s, a)
    ensures Reachable(ttl, Apply(ttl, s, a))
  {
    RunCons(ttl, s, a, [], Apply(ttl, s, a));
    ReachableRun(ttl, s, [a] + [], Apply(ttl, s, a));
  }

  function With(s: State, t: TaskId, slot: u64, pc: Pc): State {
    s.(tasks := s.tasks[t := Task(slot, pc)])
  }

  /** The three loads of one freshness check. */
  function Seen(s: State): Versions {
    Versions(|s.stamps|, |s.log|, s.slotStores)
  }

  lemma LoadStampAndValue(ttl: u64, s: State, t: TaskId, slot: u64, locked: bool)
    requires Reachable(ttl, With(s, t, slot, LoadStamp(locked)))
    ensures Reachable(ttl, With(s, t, slot, LoadSlot(locked, s.stamp, s.value, Versions(|s.stamps|, |s.log|, 0))))
  {
    var s0 := With(s, t, slot, LoadStamp(locked));
    var s1 := With(s, t, slot, LoadValue(locked, s.stamp, Versions(|s.stamps|, 0, 0)));
    assert Apply(ttl, s0, Load(t)) == s1;
    Then(ttl, s0, Load(t));
    var s2 := With(s, t, slot, LoadSlot(locked, s.stamp, s.value, Versions(|s.stamps|, |s.log|, 0)));
    assert Apply(ttl, s1, Load(t)) == s2;
    Then(ttl, s1, Load(t));
  }

  lemma LoadCells(ttl: u64, s: State, t: TaskId, slot: u64, locked: bool)
    requires Reachable(ttl, With(s, t, slot, LoadStamp(locked)))
    ensures Reachable(ttl, With(s, t, slot, Judge(locked, s.stamp, s.value, s.slot, Seen(s))))
  {
    LoadStampAndValue(ttl, s, t, slot, locked);
    var s2 := With(s, t, slot, LoadSlot(locked, s.stamp, s.value, Versions(|s.stamps|, |s.log|, 0)));
    assert Apply(ttl, s2, Load(t)) == With(s, t, slot, Judge(locked, s.stamp, s.value, s.slot, Seen(s)));
    Then(ttl, s2, Load(t));
  }

  lemma ArriveAndLock(ttl: u64, s: State, t: TaskId, slot: u64, now: u64)
    requires Reachable(ttl, s) && t !in s.tasks && s.holder.None?
    requires !Fresh(ttl, now, s.stamp, s.slot, slot)
    ensures Reachable(ttl, With(s, t, slot, LoadStamp(true)).(holder := Some(t)))
  {
    assert Apply(ttl, s, Call(t, slot)) == With(s, t, slot, LoadStamp(false));
    Then(ttl, s, Call(t, slot));
    LoadCells(ttl, s, t, slot, false);
    var judge := With(s, t, slot, Judge(false, s.stamp, s.value, s.slot, Seen(s)));
    assert Apply(ttl, judge, Decide(t, now)) == With(s, t, slot, WantLock);
    Then(ttl, judge, Decide(t, now));
    assert Apply(ttl, With(s, t, slot, WantLock), Lock(t)) == With(s, t, slot, LoadStamp(true)).(holder := Some(t));
    Then(ttl, With(s, t, slot, WantLock), Lock(t));
  }

  /** With the lock held and the cells still stale, the task is about to take its role. */
  lemma RecheckUnderLock(ttl: u64, s: State, t: TaskId, slot: u64, now: u64)
    requires s.holder == Some(t) && Reachable(ttl, With(s, t, slot, LoadStamp(true)))
    requires !Fresh(ttl, now, s.stamp, s.slot, slot)
    ensures Reachable(ttl, With(s, t, slot, Elect))
  {
    LoadCells(ttl, s, t, slot, true);
    var judge := With(s, t, slot, Judge(true, s.stamp, s.value, s.slot, Seen(s)));
    assert Apply(ttl, judge, Decide(t, now)) == With(s, t, slot, Elect);
    Then(ttl, judge, Decide(t, now));
  }

  function Leading(s: State, t: TaskId, slot: u64): State {
    With(s, t, slot, Fetching(|s.fired|)).(entry := Some(|s.fired|), fired := s.fired + [0])
  }

  lemma BecomeLeader(ttl: u64, s: State, t: TaskId, slot: u64, now: u64)
    requires Reachable(ttl, s) && t !in s.tasks && s.holder.None? && s.entry.None?
    requires !Fresh(ttl, now, s.stamp, s.slot, slot)
    ensures Reachable(ttl, Leading(s, t, slot))
  {
    ArriveAndLock(ttl, s, t, slot, now);
    var held := s.(holder := Some(t));
    assert With(s, t, slot, LoadStamp(true)).(holder := Some(t)) == With(held, t, slot, LoadStamp(true));
    RecheckUnderLock(ttl, held, t, slot, now);
    var elected := With(held, t, slot, Elect);
    var leader := With(s, t, slot, LoadHint(|s.fired|)).(entry := Some(|s.fired|), fired := s.fired + [0]);
    assert Apply(ttl, elected, TakeRole(t)) == leader;
    Then(ttl, elected, TakeRole(t));
    assert Apply(ttl, leader, StartFetch(t)) == Leading(s, t, slot);
    Then(ttl, leader, StartFetch(t));
  }

  /** The state in which the leader's value store has happened, and nothing after it. */
  function ValueStored(s: State, t: TaskId, slot: u64, n: NotifyId, val: u64): State {
    With(s, t, slot, StoreSlot(n, val)).(value := val, log := s.log + [Refresh(slot, val)])
  }

  lemma StoreFetchedValue(ttl: u64, s: State, t: TaskId, slot: u64, n: NotifyId, val: u64)
    requires Reachable(ttl, With(s, t, slot, Fetching(n)))
    ensures Reachable(ttl, ValueStored(s, t, slot, n, val))
  {
    var s0 := With(s, t, slot, Fetching(n));
    var s1 := With(s, t, slot, StoreValue(n, val));
    assert Apply(ttl, s0, FetchOk(t, val)) == s1;
    Then(ttl, s0, FetchOk(t, val));
    assert Apply(ttl, s1, Store(t, 0)) == ValueStored(s, t, slot, n, val);
    Then(ttl, s1, Store(t, 0));
  }

  /** The leader's remaining two stores. */
  function Stored(s: State, slot: u64, now: u64): State {
    s.(slot := slot, slotStores := s.slotStores + 1, stamp := now, stamps := s.stamps + [now])
  }

  lemma StoreSlotAndStamp(ttl: u64, s: State, t: TaskId, slot: u64, n: NotifyId, val: u64, now: u64)
    requires Reachable(ttl, With(s, t, slot, StoreSlot(n, val)))
    ensures Reachable(ttl, With(Stored(s, slot, now), t, slot, WantRemove(n, Finish(Fetched(val)))))
  {
    var s0 := With(s, t, slot, StoreSlot(n, val));
    var s1 := With(s, t, slot, StoreStamp(n, val)).(slot := slot, slotStores := s.slotStores + 1);
    assert Apply(ttl, s0, Store(t, now)) == s1;
    Then(ttl, s0, Store(t, now));
    assert Apply(ttl, s1, Store(t, now)) == With(Stored(s, slot, now), t, slot, WantRemove(n, Finish(Fetched(val))));
    Then(ttl, s1, Store(t, now));
  }

  lemma RemoveEntry(ttl: u64, s: State, t: TaskId, slot: u64, n: NotifyId, o: Outcome)
    requires Reachable(ttl, With(s, t, slot, WantRemove(n, Finish(o))))
    requires s.holder.None? && s.entry == Some(n)
    ensures Reachable(ttl, With(s.(entry := None), t, slot, Notifying(n, Finish(o))))
  {
    var s2 := With(s, t, slot, WantRemove(n, Finish(o)));
    var s3 := With(s, t, slot, Removing(n, Finish(o))).(holder := Some(t));
    assert Apply(ttl, s2, LockToRemove(t)) == s3;
    Then(ttl, s2, LockToRemove(t));
    assert Apply(ttl, s3, Remove(t)) == With(s.(entry := None), t, slot, Notifying(n, Finish(o)));
    Then(ttl, s3, Remove(t));
  }

  lemma RemoveAndNotify(ttl: u64, s: State, t: TaskId, slot: u64, n: NotifyId, o: Outcome)
    requires Reachable(ttl, With(s, t, slot, WantRemove(n, Finish(o))))
    requires s.holder.None? && s.entry == Some(n) && n < |s.fired|
    ensures Reachable(ttl, With(s.(entry := None, fired := s.fired[n := s.fired[n] + 1]), t, slot, Returned(o)))
  {
    RemoveEntry(ttl, s, t, slot, n, o);
    var s4 := With(s.(entry := None), t, slot, Notifying(n, Finish(o)));
    var s5 := With(s.(entry := None, fired := s.fired[n := s.fired[n] + 1]), t, slot, Returned(o));
    assert Apply(ttl, s4, Notify(t)) == s5;
    Then(ttl, s4, Notify(t));
  }

  lemma ServeFresh(ttl: u64, s: State, t: TaskId, slot: u64, now: u64)
    requires Reachable(ttl, s) && t !in s.tasks
    requires Fresh(ttl, now, s.stamp, s.slot, slot)
    ensures Reachable(ttl, With(s, t, slot, Returned(Served(s.value, s.stamp, now, Seen(s)))))
  {
    assert Apply(ttl, s, Call(t, slot)) == With(s, t, slot, LoadStamp(false));
    Then(ttl, s, Call(t, slot));
    LoadCells(ttl, s, t, slot, false);
    var judge := With(s, t, slot, Judge(false, s.stamp, s.value, s.slot, Seen(s)));
    assert Apply(ttl, judge, Decide(t, now)) == With(s, t, slot, Returned(Served(s.value, s.stamp, now, Seen(s))));
    Then(ttl, judge, Decide(t, now));
  }

  /** The state after one undisturbed refresh of slot `a` to height `h` at time 1. */
  function Refreshed(a: u64, h: u64): State {
    With(Init(0), 0, a, Returned(Fetched(h))).(
      fired := [1], value := h, slot := a, stamp := 1, log := [Refresh(a, h)], slotStores := 1, stamps := [1])
  }

  lemma FirstRefresh(ttl: u64, a: u64, h: u64)
    ensures Reachable(ttl, Refreshed(a, h))
  {
    var s := Init(0);
    assert Run(ttl, s, [], s);
    RefreshAndStore(ttl, s, 0, a, h, 1);
    var done := AllStored(s, 0, a, h, 1);
    assert done == With(done, 0, a, WantRemove(0, Finish(Fetched(h))));
    RemoveAndNotify(ttl, done, 0, a, 0, Fetched(h));
    var last := With(done.(entry := None, fired := done.fired[0 := 1]), 0, a, Returned(Fetched(h)));
    assert last.tasks == map[0 := Task(a, Returned(Fetched(h)))];
    assert last.fired == [1] && last.log == [Refresh(a, h)] && last.stamps == [1];
    assert last == Refreshed(a, h);
  }

  /** The height cache can serve one slot's height for another slot: a refresh for slot `b` has
      stored its height but not yet its slot, so the cells still name slot `a`. No store falls
      between the reader's three loads. */
  lemma TornHeightCanBeServed(ttl: u64, a: u64, b: u64, heightA: u64, heightB: u64)
    requires a != b && a != UNKNOWN_SLOT && b != UNKNOWN_SLOT && heightA != heightB
    ensures exists s, t :: Reachable(ttl, s) && t in s.tasks && s.tasks[t].slot == a
              && s.tasks[t].pc.Returned? && s.tasks[t].pc.outcome.Served?
              && s.tasks[t].pc.outcome.value == heightB
              && s.log == [Refresh(a, heightA), Refresh(b, heightB)]
  {
    FirstRefresh(ttl, a, heightA);
    var s := Refreshed(a, heightA);
    BecomeLeader(ttl, s, 1, b, 1);
    var led := Leading(s, 1, b);
    assert led == With(led, 1, b, Fetching(1));
    StoreFetchedValue(ttl, led, 1, b, 1, heightB);
    var torn := ValueStored(led, 1, b, 1, heightB);
    ServeFresh(ttl, torn, 2, a, 1);
    var served := With(torn, 2, a, Returned(Served(heightB, 1, 1, Seen(torn))));
    assert 2 in served.tasks && served.tasks[2].slot == a;
  }

  /** The first two loads of a new reader. */
  lemma BeginRead(ttl: u64, s: State, t: TaskId, slot: u64)
    requires Reachable(ttl, s) && t !in s.tasks
    ensures Reachable(ttl, With(s, t, slot, LoadSlot(false, s.stamp, s.value, Versions(|s.stamps|, |s.log|, 0))))
  {
    assert Apply(ttl, s, Call(t, slot)) == With(s, t, slot, LoadStamp(false));
    Then(ttl, s, Call(t, slot));
    LoadStampAndValue(ttl, s, t, slot, false);
  }

  /** The last load and the verdict of a reader that stopped before its slot load. */
  lemma FinishRead(ttl: u64, s: State, t: TaskId, stamp: u64, val: u64, seen: Versions, now: u64)
    requires Reachable(ttl, s) && t in s.tasks && s.tasks[t].pc == LoadSlot(false, stamp, val, seen)
    requires Fresh(ttl, now, stamp, s.slot, s.tasks[t].slot)
    ensures Reachable(ttl, Goto(s, t, Returned(Served(val, stamp, now, seen.(slots := s.slotStores)))))
  {
    var judge := Goto(s, t, Judge(false, stamp, val, s.slot, seen.(slots := s.slotStores)));
    assert Apply(ttl, s, Load(t)) == judge;
    Then(ttl, s, Load(t));
    var served := Goto(s, t, Returned(Served(val, stamp, now, seen.(slots := s.slotStores))));
    assert Apply(ttl, judge, Decide(t, now)) == served;
    Then(ttl, judge, Decide(t, now));
  }

  /** A whole refresh by a new task, up to its cleanup. */
  function AllStored(s: State, t: TaskId, slot: u64, val: u64, now: u64): State {
    var n := |s.fired|;
    With(Stored(ValueStored(Leading(s, t, slot), t, slot, n, val), slot, now),
         t, slot, WantRemove(n, Finish(Fetched(val))))
  }

  lemma RefreshAndStore(ttl: u64, s: State, t: TaskId, slot: u64, val: u64, now: u64)
    requires Reachable(ttl, s) && t !in s.tasks && s.holder.None? && s.entry.None?
    requires !Fresh(ttl, now, s.stamp, s.slot, slot)
    ensures Reachable(ttl, AllStored(s, t, slot, val, now))
  {
    var n := |s.fired|;
    BecomeLeader(ttl, s, t, slot, now);
    var led := Leading(s, t, slot);
    assert led == With(led, t, slot, Fetching(n));
    StoreFetchedValue(ttl, led, t, slot, n, val);
    var stored := ValueStored(led, t, slot, n, val);
    assert stored == With(stored, t, slot, StoreSlot(n, val));
    StoreSlotAndStamp(ttl, stored, t, slot, n, val, now);
  }

  /** Task 2 has loaded timestamp and height of slot `a`, and then task 1 refreshes slot `b`. */
  function Overtaken(s: State, a: u64, b: u64, heightA: u64, heightB: u64): State {
    s.(tasks := s.tasks[2 := Task(b, LoadSlot(false, 1, heightA, Versions(1, 1, 0)))]
                       [1 := Task(b, WantRemove(1, Finish(Fetched(heightB))))],
       entry := Some(1), fired := [1, 0], value := heightB, slot := b, stamp := 1,
       log := [Refresh(a, heightA), Refresh(b, heightB)], slotStores := 2, stamps := [1, 1])
  }

  lemma OvertakeReader(ttl: u64, a: u64, b: u64, heightA: u64, heightB: u64)
    requires a != b && a != UNKNOWN_SLOT
    ensures Reachable(ttl, Overtaken(Refreshed(a, heightA), a, b, heightA, heightB))
  {
    FirstRefresh(ttl, a, heightA);
    var s := Refreshed(a, heightA);
    BeginRead(ttl, s, 2, b);
    var reading := With(s, 2, b, LoadSlot(false, 1, heightA, Versions(1, 1, 0)));
    RefreshAndStore(ttl, reading, 1, b, heightB, 1);
    assert AllStored(reading, 1, b, heightB, 1) == Overtaken(s, a, b, heightA, heightB);
  }

  /** The other way to the wrong slot's height: between the reader's value load and its slot load
      a whole refresh takes place, so the reader pairs the old height with the new slot. */
  lemma OvertakenHeightCanBeServed(ttl: u64, a: u64, b: u64, heightA: u64, heightB: u64)
    requires a != b && a != UNKNOWN_SLOT && b != UNKNOWN_SLOT && heightA != heightB
    ensures exists s, t :: Reachable(ttl, s) && t in s.tasks && s.tasks[t].slot == b
              && s.tasks[t].pc.Returned? && s.tasks[t].pc.outcome.Served?
              && s.tasks[t].pc.outcome.value == heightA
              && s.log == [Refresh(a, heightA), Refresh(b, heightB)]
  {
    OvertakeReader(ttl, a, b, heightA, heightB);
    var s := Overtaken(Refreshed(a, heightA), a, b, heightA, heightB);
    FinishRead(ttl, s, 2, 1, heightA, Versions(1, 1, 0), 1);
    var served := Goto(s, 2, Returned(Served(heightA, 1, 1, Versions(1, 1, 2))));
    assert served.tasks[2].slot == b;
  }

  /** A leader can still be dropped after its fetch succeeded and its value is stored: its destructor
      finishes for it, and the caller gets nothing. */
  lemma StoredValueCanOutliveCaller(ttl: u64, slot: u64, val: u64)
    ensures exists s, t :: Reachable(ttl, s) && t in s.tasks && s.tasks[t].pc.Gone?
              && s.log == [Refresh(slot, val)] && s.value == val && s.entry.None?
  {
    var s := Init(0);
    assert Run(ttl, s, [], s);
    RefreshAndStore(ttl, s, 0, slot, val, 1);
    var done := AllStored(s, 0, slot, val, 1);
    var dropped := Goto(done, 0, WantRemove(0, Destructor));
    assert Apply(ttl, done, Cancel(0)) == dropped;
    Then(ttl, done, Cancel(0));
    DestructorFinishes(ttl, dropped, 0, 0);
    var gone := Goto(dropped, 0, Gone).(entry := None, fired := dropped.fired[0 := dropped.fired[0] + 1]);
    assert gone.log == [Refresh(slot, val)];
  }

  /** The destructor gets the lock at once. */
  lemma DestructorFinishes(ttl: u64, s: State, t: TaskId, n: NotifyId)
    requires Reachable(ttl, s) && t in s.tasks && s.tasks[t].pc == WantRemove(n, Destructor)
    requires s.holder.None? && s.entry == Some(n) && n < |s.fired|
    ensures Reachable(ttl, Goto(s, t, Gone).(entry := None, fired := s.fired[n := s.fired[n] + 1]))
  {
    DestructorRemoves(ttl, s, t, n);
    var s2 := Goto(s, t, Notifying(n, Destructor)).(entry := None);
    Then(ttl, s2, Notify(t));
    assert Apply(ttl, s2, Notify(t)) == Goto(s, t, Gone).(entry := None, fired := s.fired[n := s.fired[n] + 1]);
  }

  lemma DestructorRemoves(ttl: u64, s: State, t: TaskId, n: NotifyId)
    requires Reachable(ttl, s) && t in s.tasks && s.tasks[t].pc == WantRemove(n, Destructor)
    requires s.holder.None? && s.entry == Some(n)
    ensures Reachable(ttl, Goto(s, t, Notifying(n, Destructor)).(entry := None))
  {
    Then(ttl, s, LockToRemove(t));
    var s1 := Goto(s, t, Removing(n, Destructor)).(holder := Some(t));
    assert Apply(ttl, s, LockToRemove(t)) == s1;
    Then(ttl, s1, Remove(t));
    assert Apply(ttl, s1, Remove(t)) == Goto(s, t, Notifying(n, Destructor)).(entry := None);
  }

  /** The leader (task 0) is torn down while task 1 holds the lock. */
  function Orphaned(): State {
    State(map[0 := Task(UNKNOWN_SLOT, Gone), 1 := Task(UNKNOWN_SLOT, LoadStamp(true))],
          Some(1), Some(0), [1], {0}, 0, UNKNOWN_SLOT, 0, [], 0, [])
  }

  lemma LeaderTornDown(ttl: u64)
    ensures Reachable(ttl, Orphaned())
  {
    var s := Init(0);
    var slot := UNKNOWN_SLOT;
    assert Run(ttl, s, [], s);
    BecomeLeader(ttl, s, 0, slot, 0);
    var led := Leading(s, 0, slot);
    ArriveAndLock(ttl, led, 1, slot, 0);
    assert led.fired == [0];
    assert With(led, 1, slot, LoadStamp(true)).(holder := Some(1)) == Contested(Fetching(0));
    TearLeaderDown(ttl);
  }

  /** Task 0 leads; task 1 holds the lock. */
  function Contested(leader: Pc): State {
    State(map[0 := Task(UNKNOWN_SLOT, leader), 1 := Task(UNKNOWN_SLOT, LoadStamp(true))],
          Some(1), Some(0), [0], {}, 0, UNKNOWN_SLOT, 0, [], 0, [])
  }

  lemma TearLeaderDown(ttl: u64)
    requires Reachable(ttl, Contested(Fetching(0)))
    ensures Reachable(ttl, Orphaned())
  {
    var s := Contested(WantRemove(0, Destructor));
    assert Apply(ttl, Contested(Fetching(0)), Cancel(0)) == s;
    Then(ttl, Contested(Fetching(0)), Cancel(0));
    assert [0][0 := 1] == [1];
    assert Apply(ttl, s, TearDown(0)) == Orphaned();
    Then(ttl, s, TearDown(0));
  }

  /** Runtime teardown can strand a waiter: a caller that was already past the lock when the
      leader was torn down parks on the orphaned notification, and no continuation of the run
      wakes it. */
  lemma TearDownCanStrandWaiter(ttl: u64)
    ensures exists s, t :: Reachable(ttl, s) && t in s.tasks && s.tasks[t].pc.Parked?
              && s.tasks[t].pc.n in s.orphaned
              && !CanBeWoken(ttl, s, t, s.tasks[t].pc.n, s.tasks[t].pc.epoch)
  {
    LeaderTornDown(ttl);
    var s := Orphaned();
    assert s == With(s, 1, UNKNOWN_SLOT, LoadStamp(true));
    RecheckUnderLock(ttl, s, 1, UNKNOWN_SLOT, 0);
    var elected := With(s, 1, UNKNOWN_SLOT, Elect);
    var parked := With(s, 1, UNKNOWN_SLOT, Parked(0, 1)).(holder := None);
    assert Apply(ttl, elected, TakeRole(1)) == parked;
    Then(ttl, elected, TakeRole(1));
    assert parked.tasks[1].pc == Parked(0, 1);
    WaiterCanBeWokenUnlessOrphaned(ttl, parked, 1);
  }
}
