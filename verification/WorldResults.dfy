/** What every sequence of operations guarantees about the banks and the reads. */
module AlpenglowResults {
  import opened Basics
  import opened Alpenglow

  // ---- The invariant is inductive -----------------------------------------------------

  lemma InitInv(cfg: Config)
    ensures Inv(cfg, Init(cfg))
  {
  }

  /** Nothing but statuses changed, and no bank became visible. */
  ghost predicate OnlyHidden(a: seq<Bank>, b: seq<Bank>) {
    && |a| == |b|
    && forall k :: 0 <= k < |a| ==>
         && b[k].(status := a[k].status) == a[k]
         && (b[k].status.Visible? ==> a[k].status.Visible?)
         && (b[k].status.Staged? ==> a[k].status.Staged?)
  }

  lemma HidingKeepsInv(cfg: Config, s: State, s': State)
    requires Inv(cfg, s) && OnlyHidden(s.banks, s'.banks)
    requires s'.stored == s.stored
    requires s'.dropTip.Some? ==> s'.tx.None? && forall k :: 0 <= k < |s'.banks| ==> !s'.banks[k].status.Visible?
    requires s'.tx.Some? ==> s'.tx == s.tx && exists i :: Indexes(s'.banks, s'.tx.value, i)
    ensures Inv(cfg, s')
  {
    forall k | 0 <= k < |s.banks|
      ensures s'.banks[k].id == s.banks[k].id && s'.banks[k].slot == s.banks[k].slot
      ensures s'.banks[k].token == s.banks[k].token && s'.banks[k].hasTx == s.banks[k].hasTx
    {
      assert s'.banks[k].(status := s.banks[k].status) == s.banks[k];
    }
    forall slot | slot in s'.stored ensures exists i :: Stores(s'.banks, slot, s'.stored[slot], i) {
      var i :| Stores(s.banks, slot, s.stored[slot], i);
      assert Stores(s'.banks, slot, s'.stored[slot], i);
    }
  }

  /** Every bank keeps its id and slot, and a finalized one stays finalized. */
  lemma StoredSurvives(s: State, s': State)
    requires StoredIsFinalized(s) && s'.stored == s.stored && |s.banks| <= |s'.banks|
    requires forall k :: 0 <= k < |s.banks| ==>
               && s'.banks[k].id == s.banks[k].id && s'.banks[k].slot == s.banks[k].slot
               && (s.banks[k].token == Some(Finalized) ==> s'.banks[k].token == Some(Finalized))
    ensures StoredIsFinalized(s')
  {
    forall slot | slot in s'.stored ensures exists k :: Stores(s'.banks, slot, s'.stored[slot], k) {
      var k :| Stores(s.banks, slot, s.stored[slot], k);
      assert Stores(s'.banks, slot, s'.stored[slot], k);
    }
  }

  /** No visible bank changes its id, slot, visibility or transaction. */
  lemma IndexSurvives(s: State, s': State)
    requires IndexOk(s) && s'.tx == s.tx && |s.banks| <= |s'.banks|
    requires forall k :: 0 <= k < |s.banks| && s.banks[k].status.Visible? ==>
               s'.banks[k].id == s.banks[k].id && s'.banks[k].slot == s.banks[k].slot
               && s'.banks[k].status.Visible? && s'.banks[k].hasTx == s.banks[k].hasTx
    ensures IndexOk(s')
  {
    if s.tx.Some? {
      var k :| Indexes(s.banks, s.tx.value, k);
      assert Indexes(s'.banks, s'.tx.value, k);
    }
  }

  lemma HoldKeepsInv(cfg: Config, s: State, i: nat)
    requires Inv(cfg, s) && i < |s.banks| && !s.banks[i].status.Visible?
    ensures Inv(cfg, SetStatus(s, i, Held))
  {
    var s' := SetStatus(s, i, Held);
    if s.tx.Some? {
      var k :| Indexes(s.banks, s.tx.value, k);
      assert Indexes(s'.banks, s.tx.value, k);
    }
    HidingKeepsInv(cfg, s, s');
  }

  lemma ProjectKeepsInv(cfg: Config, s: State, i: nat)
    requires Inv(cfg, s) && i < |s.banks| && s.banks[i].status.Visible? && s.banks[i].hasTx
    ensures Inv(cfg, ProjectOf(s, i))
  {
    assert Indexes(s.banks, Projection(s.banks[i].slot, s.banks[i].id), i);
  }

  ghost predicate AloneInSlot(banks: seq<Bank>, i: nat)
    requires i < |banks|
  {
    forall k :: 0 <= k < |banks| && k != i && banks[k].slot == banks[i].slot ==> !banks[k].status.Visible?
  }

  lemma ShowKeepsInv(cfg: Config, s: State, i: nat)
    requires Inv(cfg, s) && i < |s.banks| && s.dropTip.None?
    requires Meets(s.banks[i].token, cfg.min) && AloneInSlot(s.banks, i)
    ensures Inv(cfg, ShowOf(s, i))
  {
    var s' := SetStatus(s, i, Visible);
    IndexSurvives(s, s');
    StoredSurvives(s, s');
    assert Inv(cfg, s');
    if s.banks[i].hasTx {
      ProjectKeepsInv(cfg, s', i);
    }
  }

  lemma PublishKeepsInv(cfg: Config, s: State, i: nat)
    requires Inv(cfg, s) && i < |s.banks|
    requires s.banks[i].status.Visible? ==> Meets(s.banks[i].token, cfg.min)
    requires s.banks[i].token == Some(Processed) ==> !s.banks[i].status.Visible?
    requires s.banks[i].token == Some(Processed) || AloneInSlot(s.banks, i)
    ensures Inv(cfg, PublishOf(cfg, s, i))
  {
    var bank := s.banks[i];
    if bank.status.Discarded? || bank.status.Cleared? || s.dropTip.Some? {
    } else if !Meets(bank.token, cfg.min) {
      HoldKeepsInv(cfg, s, i);
    } else {
      var current := VisibleAt(s.banks, bank.slot);
      if current.Some? && current.value != i {
        HoldKeepsInv(cfg, s, i);
      } else {
        assert AloneInSlot(s.banks, i);
        ShowKeepsInv(cfg, s, i);
      }
    }
  }

  /** Changing a token upward. */
  lemma RaiseKeepsInv(cfg: Config, s: State, i: nat, token: Token)
    requires Inv(cfg, s) && i < |s.banks| && token != Processed
    requires s.banks[i].token.Some? && Rank(s.banks[i].token.value) <= Rank(token)
    requires forall k :: 0 <= k < |s.banks| && k != i && s.banks[k].slot == s.banks[i].slot ==>
               !Committed(s.banks[k].token)
    ensures Inv(cfg, s.(banks := s.banks[i := s.banks[i].(token := Some(token))]))
  {
    var s' := s.(banks := s.banks[i := s.banks[i].(token := Some(token))]);
    IndexSurvives(s, s');
    StoredSurvives(s, s');
  }

  lemma IdDeterminesBank(banks: seq<Bank>, i: nat)
    requires UniqueIds(banks) && i < |banks|
    ensures BankAt(banks, banks[i].id) == Some(i)
  {
    assert BankAt(banks, banks[i].id).Some?;
  }

  lemma RivalsGoneKeepsInv(cfg: Config, s: State, i: nat)
    requires Inv(cfg, s) && i < |s.banks|
    ensures Inv(cfg, DropDiscardedIndex(s.(banks := DiscardRivals(s.banks, i))))
  {
    var s0 := s.(banks := DiscardRivals(s.banks, i));
    var s' := DropDiscardedIndex(s0);
    assert OnlyHidden(s.banks, s'.banks);
    if s.tx.Some? {
      var k: nat :| Indexes(s.banks, s.tx.value, k);
      assert s0.banks[k].id == s.tx.value.bank;
      assert UniqueIds(s0.banks);
      IdDeterminesBank(s0.banks, k);
      if s'.tx.Some? {
        assert Indexes(s'.banks, s'.tx.value, k);
      }
    }
    HidingKeepsInv(cfg, s, s');
  }

  lemma ElectKeepsInv(cfg: Config, s: State, i: nat, token: Token)
    requires Inv(cfg, s) && Allowed(s, Commit(i, token))
    ensures Inv(cfg, ElectOf(s, i, token))
    ensures AloneInSlot(ElectOf(s, i, token).banks, i)
  {
    RivalsGoneKeepsInv(cfg, s, i);
    RaiseKeepsInv(cfg, DropDiscardedIndex(s.(banks := DiscardRivals(s.banks, i))), i, token);
  }

  lemma CommitKeepsInv(cfg: Config, s: State, i: nat, token: Token)
    requires Inv(cfg, s) && Allowed(s, Commit(i, token))
    ensures Inv(cfg, CommitOf(cfg, s, i, token))
  {
    var e := ElectOf(s, i, token);
    ElectKeepsInv(cfg, s, i, token);
    PublishKeepsInv(cfg, e, i);
    var p := PublishOf(cfg, e, i);
    if p.banks[i].status.Visible? && p.banks[i].hasTx {
      ProjectKeepsInv(cfg, p, i);
    }
  }

  lemma DiscardSlotKeepsInv(cfg: Config, s: State, slot: nat)
    requires Inv(cfg, s)
    ensures Inv(cfg, DiscardSlotOf(s, slot))
  {
    var s' := DiscardSlotOf(s, slot);
    if s'.tx.Some? {
      var k :| Indexes(s.banks, s.tx.value, k);
      assert Indexes(s'.banks, s'.tx.value, k);
    }
    HidingKeepsInv(cfg, s, s');
  }

  lemma EvictKeepsInv(cfg: Config, s: State)
    requires Inv(cfg, s)
    ensures Inv(cfg, EvictOf(cfg, s))
  {
    var s' := EvictOf(cfg, s);
    if s'.tx.Some? {
      var k :| Indexes(s.banks, s.tx.value, k);
      assert Indexes(s'.banks, s'.tx.value, k);
    }
    HidingKeepsInv(cfg, s, s');
  }

  lemma CreateKeepsInv(cfg: Config, s: State, op: Op)
    requires Inv(cfg, s) && op.Create? && Allowed(s, op)
    ensures Inv(cfg, Apply(cfg, s, op))
  {
    var s' := Apply(cfg, s, op);
    IndexSurvives(s, s');
    StoredSurvives(s, s');
  }

  lemma FreezeKeepsInv(cfg: Config, s: State, i: nat)
    requires Inv(cfg, s) && Allowed(s, Freeze(i))
    ensures Inv(cfg, Apply(cfg, s, Freeze(i)))
  {
    var s' := Apply(cfg, s, Freeze(i));
    IndexSurvives(s, s');
    StoredSurvives(s, s');
  }

  lemma IngestKeepsInv(cfg: Config, s: State, slot: nat)
    requires Inv(cfg, s) && Allowed(s, Ingest(slot))
    ensures Inv(cfg, Apply(cfg, s, Ingest(slot)))
  {
    var s' := Apply(cfg, s, Ingest(slot));
    var f := FinalizedAt(s.banks, slot).value;
    assert Stores(s'.banks, slot, s'.stored[slot], f);
    forall l | l in s'.stored ensures exists k :: Stores(s'.banks, l, s'.stored[l], k) {
      if l != slot {
        var k :| Stores(s.banks, l, s.stored[l], k);
        assert Stores(s'.banks, l, s'.stored[l], k);
      }
    }
  }

  /** Every operation keeps the invariant. */
  lemma StepKeepsInv(cfg: Config, s: State, op: Op)
    requires Inv(cfg, s) && Allowed(s, op)
    ensures Inv(cfg, Apply(cfg, s, op))
  {
    match op {
      case Create(_, _, _) => CreateKeepsInv(cfg, s, op);
      case Freeze(i) => FreezeKeepsInv(cfg, s, i);
      case Publish(i) => PublishKeepsInv(cfg, s, i);
      case Commit(i, token) => CommitKeepsInv(cfg, s, i, token);
      case DiscardSlot(slot) => DiscardSlotKeepsInv(cfg, s, slot);
      case Advance(_, _) =>
      case Evict => EvictKeepsInv(cfg, s);
      case DropStream => HidingKeepsInv(cfg, s, DropOf(s));
      case Ingest(slot) => IngestKeepsInv(cfg, s, slot);
      case CopyToDisk(_) =>
    }
  }

  lemma {:induction false} RunKeepsInv(cfg: Config, s: State, ops: seq<Op>, s': State)
    requires Inv(cfg, s) && Run(cfg, s, ops, s')
    ensures Inv(cfg, s')
    decreases |ops|
  {
    if ops != [] {
      StepKeepsInv(cfg, s, ops[0]);
      RunKeepsInv(cfg, Apply(cfg, s, ops[0]), ops[1..], s');
    }
  }

  /** In every run: at most one visible bank per slot, each meeting the configured minimum; the
      signature index is empty or names a visible bank of its slot holding the transaction; and
      after a stream drop nothing is visible or indexed. */
  lemma ReachableInv(cfg: Config, s: State)
    requires Reachable(cfg, s)
    ensures Inv(cfg, s)
  {
    var ops :| Run(cfg, Init(cfg), ops, s);
    InitInv(cfg);
    RunKeepsInv(cfg, Init(cfg), ops, s);
  }

  /** A dropped stream stays dropped: whatever happens afterwards, nothing is visible or indexed. */
  lemma {:induction false} NothingAfterDrop(cfg: Config, s: State, ops: seq<Op>, s': State)
    requires Inv(cfg, s) && Run(cfg, s, [DropStream] + ops, s')
    ensures s'.dropTip.Some? && s'.tx.None?
    ensures forall i :: 0 <= i < |s'.banks| ==> !s'.banks[i].status.Visible?
  {
    assert ([DropStream] + ops)[1..] == ops;
    StepKeepsInv(cfg, s, DropStream);
    DropIsPermanent(cfg, DropOf(s), ops, s');
    RunKeepsInv(cfg, DropOf(s), ops, s');
  }

  lemma {:induction false} DropIsPermanent(cfg: Config, s: State, ops: seq<Op>, s': State)
    requires Inv(cfg, s) && s.dropTip.Some? && Run(cfg, s, ops, s')
    ensures s'.dropTip.Some?
    decreases |ops|
  {
    if ops != [] {
      StepKeepsInv(cfg, s, ops[0]);
      DropIsPermanent(cfg, Apply(cfg, s, ops[0]), ops[1..], s');
    }
  }

  // ---- What commit and publish achieve ------------------------------------------------------

  /** A committed bank that meets the minimum is shown, alone in its slot, unless the stream dropped
      or the bank was discarded or cleared before. */
  lemma CommitShowsWinner(cfg: Config, s: State, i: nat, token: Token)
    requires Inv(cfg, s) && Allowed(s, Commit(i, token))
    ensures CommitOf(cfg, s, i, token).banks[i].status.Visible? <==>
              && s.dropTip.None? && !s.banks[i].status.Discarded? && !s.banks[i].status.Cleared?
              && Meets(Some(token), cfg.min)
    ensures CommitOf(cfg, s, i, token).banks[i].token == Some(token)
    ensures AloneInSlot(CommitOf(cfg, s, i, token).banks, i)
  {
    ElectKeepsInv(cfg, s, i, token);
  }

  /** A visible winner that holds the transaction takes the signature index over, unless the index
      names a visible committed bank of another slot. */
  lemma CommitReclaimsIndex(cfg: Config, s: State, i: nat, token: Token)
    requires Inv(cfg, s) && Allowed(s, Commit(i, token))
    requires CommitOf(cfg, s, i, token).banks[i].status.Visible? && s.banks[i].hasTx
    ensures CommitOf(cfg, s, i, token).tx == Some(Projection(s.banks[i].slot, s.banks[i].id))
            <==> !exists o: nat :: Holds(s, o) && s.banks[o].slot != s.banks[i].slot
  {
    var s' := CommitOf(cfg, s, i, token);
    if o: nat :| Holds(s, o) && s.banks[o].slot != s.banks[i].slot {
      CommitRespectsHolder(cfg, s, o, i, token);
    } else {
      IndexIsTakenOver(cfg, s, i, token);
    }
  }

  lemma IndexIsTakenOver(cfg: Config, s: State, i: nat, token: Token)
    requires Inv(cfg, s) && Allowed(s, Commit(i, token))
    requires CommitOf(cfg, s, i, token).banks[i].status.Visible? && s.banks[i].hasTx
    requires forall o: nat :: Holds(s, o) ==> s.banks[o].slot == s.banks[i].slot
    ensures CommitOf(cfg, s, i, token).tx == Some(Projection(s.banks[i].slot, s.banks[i].id))
  {
    var e := ElectOf(s, i, token);
    ElectKeepsInv(cfg, s, i, token);
    assert PublishOf(cfg, e, i) == ShowOf(e, i);
    if e.tx.Some? && e.tx.value.slot != s.banks[i].slot {
      var o: nat :| Indexes(e.banks, e.tx.value, o);
      assert s.banks[o] == e.banks[o] && s.tx == e.tx && Indexes(s.banks, s.tx.value, o);
      assert !Holds(s, o);
      WinsOverProcessed(cfg, e, i, o);
    }
    assert Wins(SetStatus(e, i, Visible), i);
  }

  lemma WinsOverProcessed(cfg: Config, s: State, i: nat, o: nat)
    requires Inv(cfg, s) && i < |s.banks| && s.tx.Some? && Indexes(s.banks, s.tx.value, o) && i != o
    requires Committed(s.banks[i].token) && !Committed(s.banks[o].token)
    ensures Wins(SetStatus(s, i, Visible), i)
  {
    IdDeterminesBank(SetStatus(s, i, Visible).banks, o);
  }

  /** A processed bank never displaces another, and is shown when its slot shows none. Nor does it
      take the signature index from anyone. */
  lemma PublishKeepsFirst(cfg: Config, s: State, i: nat)
    requires Inv(cfg, s) && Allowed(s, Publish(i))
    ensures PublishOf(cfg, s, i).banks[i].status.Visible? <==>
              s.dropTip.None? && cfg.min == Processed && VisibleAt(s.banks, s.banks[i].slot).None?
    ensures forall k :: 0 <= k < |s.banks| && k != i ==> PublishOf(cfg, s, i).banks[k] == s.banks[k]
    ensures PublishOf(cfg, s, i).tx ==
              if s.tx.None? && s.banks[i].hasTx && PublishOf(cfg, s, i).banks[i].status.Visible?
              then Some(Projection(s.banks[i].slot, s.banks[i].id)) else s.tx
  {
    if s.tx.Some? {
      var o :| Indexes(s.banks, s.tx.value, o);
      IdDeterminesBank(s.banks, o);
      IdDeterminesBank(SetStatus(s, i, Visible).banks, o);
    }
  }

  /** Evicting and discarding hide exactly the banks they name, and the index goes exactly when its
      bank does. */
  lemma IndexFollowsItsBank(cfg: Config, s: State, op: Op, i: nat)
    requires Inv(cfg, s) && (op.Evict? || op.DiscardSlot?)
    requires s.tx.Some? && Indexes(s.banks, s.tx.value, i)
    ensures Apply(cfg, s, op).tx == if Apply(cfg, s, op).banks[i].status.Visible? then s.tx else None
    ensures Apply(cfg, s, op).banks[i].status.Visible? <==>
              if op.Evict? then HeadLo(cfg, s) <= s.banks[i].slot else s.banks[i].slot != op.slot
  {
  }

  lemma DiscardedStays(cfg: Config, s: State, op: Op, k: nat)
    requires Allowed(s, op) && k < |s.banks| && s.banks[k].status.Discarded?
    ensures k < |Apply(cfg, s, op).banks| && Apply(cfg, s, op).banks[k].status.Discarded?
  {
    match op
    case Publish(i) => PublishLeavesDiscarded(cfg, s, i, k);
    case Commit(i, token) =>
      var e := ElectOf(s, i, token);
      assert e.banks[k].status.Discarded?;
      PublishLeavesDiscarded(cfg, e, i, k);
      assert CommitOf(cfg, s, i, token).banks == PublishOf(cfg, e, i).banks;
    case _ =>
  }

  lemma PublishLeavesDiscarded(cfg: Config, s: State, i: nat, k: nat)
    requires i < |s.banks| && k < |s.banks| && s.banks[k].status.Discarded?
    ensures k < |PublishOf(cfg, s, i).banks| && PublishOf(cfg, s, i).banks[k].status.Discarded?
  {
  }

  lemma {:induction false} DiscardedIsForever(cfg: Config, s: State, ops: seq<Op>, s': State, k: nat)
    requires Run(cfg, s, ops, s') && k < |s.banks| && s.banks[k].status.Discarded?
    ensures k < |s'.banks| && s'.banks[k].status.Discarded?
    decreases |ops|
  {
    if ops != [] {
      DiscardedStays(cfg, s, ops[0], k);
      DiscardedIsForever(cfg, Apply(cfg, s, ops[0]), ops[1..], s', k);
    }
  }

  lemma {:induction false} ClearedIsForever(cfg: Config, s: State, ops: seq<Op>, s': State, k: nat)
    requires Run(cfg, s, ops, s') && k < |s.banks| && (s.banks[k].status.Cleared? || s.banks[k].status.Discarded?)
    ensures k < |s'.banks| && (s'.banks[k].status.Cleared? || s'.banks[k].status.Discarded?)
    decreases |ops|
  {
    if ops != [] {
      ClearedStays(cfg, s, ops[0], k);
      ClearedIsForever(cfg, Apply(cfg, s, ops[0]), ops[1..], s', k);
    }
  }

  lemma ClearedStays(cfg: Config, s: State, op: Op, k: nat)
    requires Allowed(s, op) && k < |s.banks| && (s.banks[k].status.Cleared? || s.banks[k].status.Discarded?)
    ensures var banks := Apply(cfg, s, op).banks;
            k < |banks| && (banks[k].status.Cleared? || banks[k].status.Discarded?)
  {
    match op
    case Publish(i) => PublishLeavesGone(cfg, s, i, k);
    case Commit(i, token) =>
      var e := ElectOf(s, i, token);
      assert e.banks[k].status.Cleared? || e.banks[k].status.Discarded?;
      PublishLeavesGone(cfg, e, i, k);
      assert CommitOf(cfg, s, i, token).banks == PublishOf(cfg, e, i).banks;
    case _ =>
  }

  lemma PublishLeavesGone(cfg: Config, s: State, i: nat, k: nat)
    requires i < |s.banks| && k < |s.banks| && (s.banks[k].status.Cleared? || s.banks[k].status.Discarded?)
    ensures var banks := PublishOf(cfg, s, i).banks;
            k < |banks| && (banks[k].status.Cleared? || banks[k].status.Discarded?)
  {
  }

  /** The losers of a slot are out for good: once a bank is committed, no other bank the slot had then,
      whatever its status, is shown or stays frozen or held at any later moment. The same goes for
      all banks of a slot that is discarded. */
  lemma LosersStayOut(cfg: Config, s: State, op: Op, ops: seq<Op>, s': State, k: nat)
    requires Run(cfg, s, [op] + ops, s') && k < |s.banks|
    requires (op.Commit? && k != op.i && op.i < |s.banks| && s.banks[k].slot == s.banks[op.i].slot)
             || (op.DiscardSlot? && s.banks[k].slot == op.slot)
    ensures k < |s'.banks|
    ensures s'.banks[k].status.Discarded? || (s.banks[k].status.Cleared? && s'.banks[k].status.Cleared?)
  {
    assert ([op] + ops)[0] == op && ([op] + ops)[1..] == ops;
    var next := Apply(cfg, s, op);
    LosersAreOut(cfg, s, op, k);
    if s.banks[k].status.Cleared? {
      ClearedIsForever(cfg, next, ops, s', k);
    } else {
      DiscardedIsForever(cfg, next, ops, s', k);
    }
  }

  lemma LosersAreOut(cfg: Config, s: State, op: Op, k: nat)
    requires Allowed(s, op) && k < |s.banks|
    requires (op.Commit? && k != op.i && op.i < |s.banks| && s.banks[k].slot == s.banks[op.i].slot)
             || (op.DiscardSlot? && s.banks[k].slot == op.slot)
    ensures var banks := Apply(cfg, s, op).banks;
            && k < |banks|
            && (if s.banks[k].status.Cleared? then banks[k].status.Cleared? || banks[k].status.Discarded?
                else banks[k].status.Discarded?)
  {
    if op.Commit? {
      var e := ElectOf(s, op.i, op.token);
      assert e.banks[k].status == if s.banks[k].status.Cleared? then Cleared else Discarded;
      PublishLeavesGone(cfg, e, op.i, k);
      if e.banks[k].status.Discarded? {
        PublishLeavesDiscarded(cfg, e, op.i, k);
      }
      assert CommitOf(cfg, s, op.i, op.token).banks == PublishOf(cfg, e, op.i).banks;
    }
  }

  // ---- A committed bank keeps the signature index ----------------------------------------

  /** The index names bank `i`, which is visible and committed. */
  ghost predicate Holds(s: State, i: nat) {
    s.tx.Some? && Indexes(s.banks, s.tx.value, i) && Committed(s.banks[i].token)
  }

  ghost predicate VisibleBank(s: State, i: nat) {
    i < |s.banks| && s.banks[i].status.Visible?
  }

  ghost predicate StaysVisible(cfg: Config, s: State, ops: seq<Op>, i: nat)
    decreases |ops|
  {
    && VisibleBank(s, i)
    && (ops != [] && Allowed(s, ops[0]) ==> StaysVisible(cfg, Apply(cfg, s, ops[0]), ops[1..], i))
  }

  lemma ProjectRespectsHolder(s: State, i: nat, j: nat)
    requires UniqueIds(s.banks) && Holds(s, i) && j < |s.banks|
    requires j == i || s.banks[j].slot != s.banks[i].slot
    ensures ProjectOf(s, j).tx == s.tx
  {
    IdDeterminesBank(s.banks, i);
  }

  lemma ShowRespectsHolder(cfg: Config, s: State, i: nat, j: nat)
    requires Inv(cfg, s) && Holds(s, i) && j < |s.banks|
    requires j == i || s.banks[j].slot != s.banks[i].slot
    ensures ShowOf(s, j).tx == s.tx && Holds(ShowOf(s, j), i)
  {
    var s' := SetStatus(s, j, Visible);
    assert Holds(s', i);
    ProjectRespectsHolder(s', i, j);
  }

  lemma PublishRespectsHolder(cfg: Config, s: State, i: nat, j: nat)
    requires Inv(cfg, s) && Holds(s, i) && j < |s.banks|
    requires j == i || s.banks[j].slot != s.banks[i].slot || s.banks[j].token == Some(Processed)
    requires s.banks[j].token == Some(Processed) ==> !s.banks[j].status.Visible?
    requires s.banks[j].token == Some(Processed) || AloneInSlot(s.banks, j)
    ensures PublishOf(cfg, s, j).tx == s.tx
    ensures VisibleBank(PublishOf(cfg, s, j), i) ==> Holds(PublishOf(cfg, s, j), i)
  {
    var bank := s.banks[j];
    if bank.status.Discarded? || bank.status.Cleared? || s.dropTip.Some? || !Meets(bank.token, cfg.min) {
    } else {
      var current := VisibleAt(s.banks, bank.slot);
      if current.Some? && current.value != j {
      } else {
        ShowRespectsHolder(cfg, s, i, j);
      }
    }
  }

  lemma CommitRespectsHolder(cfg: Config, s: State, i: nat, j: nat, token: Token)
    requires Inv(cfg, s) && Holds(s, i) && Allowed(s, Commit(j, token))
    ensures CommitOf(cfg, s, j, token).tx == s.tx
    ensures VisibleBank(CommitOf(cfg, s, j, token), i) ==> Holds(CommitOf(cfg, s, j, token), i)
  {
    assert j == i || s.banks[j].slot != s.banks[i].slot;
    var e := ElectOf(s, j, token);
    ElectKeepsInv(cfg, s, j, token);
    IdDeterminesBank(DiscardRivals(s.banks, j), i);
    assert e.tx == s.tx && Holds(e, i);
    PublishRespectsHolder(cfg, e, i, j);
    PublishKeepsInv(cfg, e, j);
    var p := PublishOf(cfg, e, j);
    if Holds(p, i) {
      ProjectRespectsHolder(p, i, j);
    }
  }

  lemma StepRespectsHolder(cfg: Config, s: State, i: nat, op: Op)
    requires Inv(cfg, s) && Holds(s, i) && Allowed(s, op)
    requires VisibleBank(Apply(cfg, s, op), i)
    ensures Apply(cfg, s, op).tx == s.tx && Holds(Apply(cfg, s, op), i)
  {
    match op {
      case Publish(j) => PublishRespectsHolder(cfg, s, i, j);
      case Commit(j, token) => CommitRespectsHolder(cfg, s, i, j, token);
      case _ =>
    }
  }

  /** Once the signature index names a visible committed bank, no sequence of operations moves it
      while that bank stays visible. */
  lemma {:induction false} IndexStaysWithCommittedBank(cfg: Config, s: State, ops: seq<Op>, s': State, i: nat)
    requires Inv(cfg, s) && Run(cfg, s, ops, s') && Holds(s, i) && StaysVisible(cfg, s, ops, i)
    ensures s'.tx == s.tx && Holds(s', i)
    decreases |ops|
  {
    if ops != [] {
      StepKeepsInv(cfg, s, ops[0]);
      StepRespectsHolder(cfg, s, i, ops[0]);
      IndexStaysWithCommittedBank(cfg, Apply(cfg, s, ops[0]), ops[1..], s', i);
    }
  }

  // ---- Reads never disagree across tiers or over time -------------------------------------

  datatype Tier = Head | Disk | ClickHouse

  /** Which tier answered, for which slot and bank, and at which commitment. */
  datatype Answer = Answer(tier: Tier, slot: nat, bank: BankId, token: Token)

  /** What one tier alone would answer about a block. */
  function TierBlock(s: State, tier: Tier, slot: nat, read: Token): Option<Answer> {
    match tier
    case Head =>
      var v := VisibleAt(s.banks, slot);
      if v.Some? && Meets(s.banks[v.value].token, read)
      then Some(Answer(Head, slot, s.banks[v.value].id, s.banks[v.value].token.value)) else None
    case Disk =>
      if slot in s.stored && slot in s.disk then Some(Answer(Disk, slot, s.stored[slot], Finalized)) else None
    case ClickHouse =>
      if slot in s.stored then Some(Answer(ClickHouse, slot, s.stored[slot], Finalized)) else None
  }

  /** `getBlock`: head cache, then disk cache, then ClickHouse; `processed` is rejected. */
  function AnswerBlock(s: State, slot: nat, read: Token): Option<Answer> {
    if read == Processed then None
    else if TierBlock(s, Head, slot, read).Some? then TierBlock(s, Head, slot, read)
    else if TierBlock(s, Disk, slot, read).Some? then TierBlock(s, Disk, slot, read)
    else TierBlock(s, ClickHouse, slot, read)
  }

  /** Some bank of the slot is visible with a token at or above what is asked. */
  ghost predicate ShowsAt(s: State, slot: nat, read: Token, i: nat) {
    && i < |s.banks| && s.banks[i].slot == slot && s.banks[i].status.Visible?
    && s.banks[i].token.Some? && Rank(s.banks[i].token.value) >= Rank(read)
  }

  /** What each tier has, in terms of the banks and the stored rows: the head cache has the visible
      bank of the slot if its token is high enough, ClickHouse what is stored, and the disk cache
      what is stored and copied. */
  lemma TierBlockIsExact(cfg: Config, s: State, slot: nat, read: Token)
    requires Inv(cfg, s)
    ensures TierBlock(s, Head, slot, read).Some? <==> exists i: nat :: ShowsAt(s, slot, read, i)
    ensures forall i: nat :: ShowsAt(s, slot, read, i) ==>
              TierBlock(s, Head, slot, read) == Some(Answer(Head, slot, s.banks[i].id, s.banks[i].token.value))
    ensures TierBlock(s, Disk, slot, read) ==
              if slot in s.stored && slot in s.disk then Some(Answer(Disk, slot, s.stored[slot], Finalized)) else None
    ensures TierBlock(s, ClickHouse, slot, read) ==
              if slot in s.stored then Some(Answer(ClickHouse, slot, s.stored[slot], Finalized)) else None
  {
    var v := VisibleAt(s.banks, slot);
    if v.Some? && Meets(s.banks[v.value].token, read) {
      assert ShowsAt(s, slot, read, v.value);
    }
    forall i: nat | ShowsAt(s, slot, read, i) ensures v == Some(i) {
    }
  }

  /** `getBlock` answers exactly when the head cache shows such a bank or the slot is stored: from the
      head cache if it can, else from disk if the row was copied, else from ClickHouse. At processed
      it never answers. */
  lemma AnswerBlockIsExact(cfg: Config, s: State, slot: nat, read: Token)
    requires Inv(cfg, s)
    ensures read == Processed ==> AnswerBlock(s, slot, read).None?
    ensures read != Processed ==>
              && (AnswerBlock(s, slot, read).Some? <==>
                    (exists i: nat :: ShowsAt(s, slot, read, i)) || slot in s.stored)
              && (forall i: nat :: ShowsAt(s, slot, read, i) ==>
                    AnswerBlock(s, slot, read) == Some(Answer(Head, slot, s.banks[i].id, s.banks[i].token.value)))
              && ((forall i: nat :: !ShowsAt(s, slot, read, i)) && slot in s.stored ==>
                    AnswerBlock(s, slot, read)
                    == Some(Answer(if slot in s.disk then Disk else ClickHouse, slot, s.stored[slot], Finalized)))
  {
    TierBlockIsExact(cfg, s, slot, read);
  }

  ghost predicate CommittedBank(s: State, slot: nat, id: BankId, level: Token) {
    exists i :: 0 <= i < |s.banks| && s.banks[i].id == id && s.banks[i].slot == slot && Meets(s.banks[i].token, level)
  }

  /** An answer names a bank of the slot whose token really is at least what was asked. */
  lemma AnswerIsCommitted(cfg: Config, s: State, tier: Tier, slot: nat, read: Token)
    requires Inv(cfg, s) && TierBlock(s, tier, slot, read).Some?
    ensures var a := TierBlock(s, tier, slot, read).value;
            Rank(a.token) >= Rank(read) && CommittedBank(s, slot, a.bank, a.token)
  {
    if tier.Head? {
      var v := VisibleAt(s.banks, slot).value;
      assert Meets(s.banks[v].token, s.banks[v].token.value);
    } else {
      var i: nat :| Stores(s.banks, slot, s.stored[slot], i);
      assert Meets(s.banks[i].token, Finalized);
    }
  }

  lemma OneCommittedBank(cfg: Config, s: State, slot: nat, a: BankId, b: BankId, l: Token, m: Token)
    requires Inv(cfg, s) && l != Processed && m != Processed
    requires CommittedBank(s, slot, a, l) && CommittedBank(s, slot, b, m)
    ensures a == b
  {
    var i :| 0 <= i < |s.banks| && s.banks[i].id == a && s.banks[i].slot == slot && Meets(s.banks[i].token, l);
    var j :| 0 <= j < |s.banks| && s.banks[j].id == b && s.banks[j].slot == slot && Meets(s.banks[j].token, m);
    assert Committed(s.banks[i].token) && Committed(s.banks[j].token);
  }

  /** Identity and commitment of a bank survive: ids, slots and transactions are fixed, tokens
      never go down. */
  ghost predicate Grows(a: seq<Bank>, b: seq<Bank>) {
    && |a| <= |b|
    && forall k :: 0 <= k < |a| ==>
         && b[k].id == a[k].id && b[k].slot == a[k].slot && b[k].hasTx == a[k].hasTx
         && (a[k].token.Some? ==> Meets(b[k].token, a[k].token.value))
  }

  lemma StatusGrows(s: State, i: nat, status: Status)
    requires i < |s.banks|
    ensures Grows(s.banks, SetStatus(s, i, status).banks)
  {
  }

  lemma ShowGrows(s: State, i: nat)
    requires i < |s.banks|
    ensures Grows(s.banks, ShowOf(s, i).banks)
  {
    StatusGrows(s, i, Visible);
  }

  lemma PublishGrows(cfg: Config, s: State, i: nat)
    requires i < |s.banks|
    ensures Grows(s.banks, PublishOf(cfg, s, i).banks)
  {
    StatusGrows(s, i, Held);
    ShowGrows(s, i);
    var current := VisibleAt(s.banks, s.banks[i].slot);
    if current.Some? && current.value != i {
      var s1 := SetStatus(s, current.value, Discarded);
      StatusGrows(s, current.value, Discarded);
      ShowGrows(s1, i);
      GrowsTransitive(s.banks, s1.banks, ShowOf(s1, i).banks);
    }
  }

  lemma GrowsTransitive(a: seq<Bank>, b: seq<Bank>, c: seq<Bank>)
    requires Grows(a, b) && Grows(b, c)
    ensures Grows(a, c)
  {
  }

  lemma CommitGrows(cfg: Config, s: State, i: nat, token: Token)
    requires Allowed(s, Commit(i, token))
    ensures Grows(s.banks, CommitOf(cfg, s, i, token).banks)
  {
    var e := ElectOf(s, i, token);
    assert Grows(s.banks, e.banks);
    PublishGrows(cfg, e, i);
    GrowsTransitive(s.banks, e.banks, PublishOf(cfg, e, i).banks);
    assert CommitOf(cfg, s, i, token).banks == PublishOf(cfg, e, i).banks;
  }

  lemma StepGrows(cfg: Config, s: State, op: Op)
    requires Inv(cfg, s) && Allowed(s, op)
    ensures Grows(s.banks, Apply(cfg, s, op).banks)
  {
    match op {
      case Publish(i) => PublishGrows(cfg, s, i);
      case Commit(i, token) => CommitGrows(cfg, s, i, token);
      case _ =>
    }
  }

  lemma {:induction false} RunGrows(cfg: Config, s: State, ops: seq<Op>, s': State)
    requires Inv(cfg, s) && Run(cfg, s, ops, s')
    ensures Grows(s.banks, s'.banks)
    decreases |ops|
  {
    if ops != [] {
      StepGrows(cfg, s, ops[0]);
      StepKeepsInv(cfg, s, ops[0]);
      var s1 := Apply(cfg, s, ops[0]);
      RunGrows(cfg, s1, ops[1..], s');
      GrowsTransitive(s.banks, s1.banks, s'.banks);
    }
  }

  lemma CommittedBankSurvives(s: State, s': State, slot: nat, id: BankId, level: Token)
    requires Grows(s.banks, s'.banks) && CommittedBank(s, slot, id, level)
    ensures CommittedBank(s', slot, id, level)
  {
    var i :| 0 <= i < |s.banks| && s.banks[i].id == id && s.banks[i].slot == slot && Meets(s.banks[i].token, level);
    assert Meets(s'.banks[i].token, level);
  }

  /** Reads of one slot at confirmed or finalized never disagree: whatever tier answers, now or
      later in the run, at whichever of those commitments, it names the same bank. */
  lemma BlockReadsAgree(cfg: Config, s: State, ops: seq<Op>, s': State, slot: nat,
                        tier: Tier, tier': Tier, read: Token, read': Token)
    requires Reachable(cfg, s) && Run(cfg, s, ops, s')
    requires read != Processed && read' != Processed
    requires TierBlock(s, tier, slot, read).Some? && TierBlock(s', tier', slot, read').Some?
    ensures TierBlock(s, tier, slot, read).value.bank == TierBlock(s', tier', slot, read').value.bank
    ensures Rank(TierBlock(s, tier, slot, read).value.token) >= Rank(read)
  {
    ReachableInv(cfg, s);
    RunKeepsInv(cfg, s, ops, s');
    RunGrows(cfg, s, ops, s');
    var a, b := TierBlock(s, tier, slot, read).value, TierBlock(s', tier', slot, read').value;
    AnswerIsCommitted(cfg, s, tier, slot, read);
    AnswerIsCommitted(cfg, s', tier', slot, read');
    CommittedBankSurvives(s, s', slot, a.bank, a.token);
    OneCommittedBank(cfg, s', slot, a.bank, b.bank, a.token, b.token);
  }

  /** The handler's order of tiers does not matter to the answer: two `getBlock` reads of a slot, at
      any two moments of a run, name the same bank. */
  lemma BlockAnswersAgree(cfg: Config, s: State, ops: seq<Op>, s': State, slot: nat, read: Token, read': Token)
    requires Reachable(cfg, s) && Run(cfg, s, ops, s')
    requires AnswerBlock(s, slot, read).Some? && AnswerBlock(s', slot, read').Some?
    ensures AnswerBlock(s, slot, read).value.bank == AnswerBlock(s', slot, read').value.bank
    ensures Rank(AnswerBlock(s, slot, read).value.token) >= Rank(read)
  {
    BlockReadsAgree(cfg, s, ops, s', slot,
                    AnswerBlock(s, slot, read).value.tier, AnswerBlock(s', slot, read').value.tier, read, read');
  }

  // ---- getTransaction -----------------------------------------------------------------------

  ghost predicate StoredWithTx(s: State, slot: nat) {
    slot in s.stored && exists i: nat :: Stores(s.banks, slot, s.stored[slot], i) && s.banks[i].hasTx
  }

  /** At most one committed bank holds the transaction. */
  ghost predicate LandedOnce(s: State) {
    forall i, j :: 0 <= i < j < |s.banks| && s.banks[i].hasTx && s.banks[j].hasTx ==>
      !Committed(s.banks[i].token) || !Committed(s.banks[j].token)
  }

  /** The head index answers a read at this commitment. */
  ghost predicate IndexAnswers(s: State, read: Token) {
    && s.tx.Some? && BankAt(s.banks, s.tx.value.bank).Some?
    && Meets(s.banks[BankAt(s.banks, s.tx.value.bank).value].token, read)
  }

  /** A committed bank of the slot that holds the transaction. */
  ghost predicate Lands(s: State, slot: nat, id: BankId) {
    exists i: nat :: i < |s.banks| && s.banks[i].id == id && s.banks[i].slot == slot && s.banks[i].hasTx
                     && Committed(s.banks[i].token)
  }

  lemma IndexLands(cfg: Config, s: State, read: Token)
    requires Inv(cfg, s) && read != Processed && IndexAnswers(s, read)
    ensures Lands(s, s.tx.value.slot, s.tx.value.bank)
  {
    var i: nat :| Indexes(s.banks, s.tx.value, i);
    IdDeterminesBank(s.banks, i);
    assert Committed(s.banks[i].token);
  }

  lemma LandsSurvives(s: State, s': State, slot: nat, id: BankId)
    requires Grows(s.banks, s'.banks) && Lands(s, slot, id)
    ensures Lands(s', slot, id)
  {
    var i: nat :| i < |s.banks| && s.banks[i].id == id && s.banks[i].slot == slot && s.banks[i].hasTx
                  && Committed(s.banks[i].token);
    assert Committed(s'.banks[i].token) && s'.banks[i].hasTx;
  }

  lemma LandsInOnePlace(s: State, slot: nat, id: BankId, slot': nat, id': BankId)
    requires LandedOnce(s) && Lands(s, slot, id) && Lands(s, slot', id')
    ensures slot == slot' && id == id'
  {
    var i: nat :| i < |s.banks| && s.banks[i].id == id && s.banks[i].slot == slot && s.banks[i].hasTx
                  && Committed(s.banks[i].token);
    var j: nat :| j < |s.banks| && s.banks[j].id == id' && s.banks[j].slot == slot' && s.banks[j].hasTx
                  && Committed(s.banks[j].token);
    assert i == j;
  }

  /** Reads of the transaction at confirmed or finalized agree over time: if it lands in at most one
      committed bank, then the head index at one moment of a run and a stored row at another, in
      either order, and so any two of them, place it in the same slot and the same bank. */
  lemma TransactionReadsAgree(cfg: Config, s: State, ops: seq<Op>, s': State, slot: nat, read: Token)
    requires Reachable(cfg, s) && Run(cfg, s, ops, s') && read != Processed && LandedOnce(s')
    ensures IndexAnswers(s, read) && StoredWithTx(s', slot) ==>
              s.tx.value == Projection(slot, s'.stored[slot])
    ensures StoredWithTx(s, slot) && IndexAnswers(s', read) ==>
              s'.tx.value == Projection(slot, s.stored[slot])
    ensures IndexAnswers(s, read) && IndexAnswers(s', read) ==> s.tx == s'.tx
  {
    ReachableInv(cfg, s);
    RunKeepsInv(cfg, s, ops, s');
    RunGrows(cfg, s, ops, s');
    if IndexAnswers(s, read) {
      IndexLands(cfg, s, read);
      LandsSurvives(s, s', s.tx.value.slot, s.tx.value.bank);
    }
    if StoredWithTx(s, slot) {
      StoredLands(s, slot);
      LandsSurvives(s, s', slot, s.stored[slot]);
    }
    if IndexAnswers(s', read) {
      IndexLands(cfg, s', read);
    }
    if StoredWithTx(s', slot) {
      StoredLands(s', slot);
    }
    LandsAgree(s');
  }

  lemma StoredLands(s: State, slot: nat)
    requires StoredWithTx(s, slot)
    ensures Lands(s, slot, s.stored[slot])
  {
    var j: nat :| Stores(s.banks, slot, s.stored[slot], j) && s.banks[j].hasTx;
    assert Committed(s.banks[j].token);
  }

  lemma LandsAgree(s: State)
    requires LandedOnce(s)
    ensures forall slot, id, slot', id' :: Lands(s, slot, id) && Lands(s, slot', id') ==> slot == slot' && id == id'
  {
    forall slot, id, slot', id' | Lands(s, slot, id) && Lands(s, slot', id') ensures slot == slot' && id == id' {
      LandsInOnePlace(s, slot, id, slot', id');
    }
  }

  // ---- The head window bounds the head cache ---------------------------------------------------

  function VisibleBanks(banks: seq<Bank>): set<nat> {
    set i | 0 <= i < |banks| && banks[i].status.Visible?
  }

  /** Nothing is visible above the newest head slot. */
  ghost predicate BelowHead(cfg: Config, s: State) {
    forall i :: 0 <= i < |s.banks| && s.banks[i].status.Visible? ==> s.banks[i].slot <= HeadHi(cfg, s)
  }

  function VisibleIn(banks: seq<Bank>, lo: int, hi: int): set<nat> {
    set i | i in VisibleBanks(banks) && lo <= banks[i].slot <= hi
  }

  function VisibleAbove(banks: seq<Bank>, hi: int): set<nat> {
    set i | i in VisibleBanks(banks) && hi < banks[i].slot
  }

  /** The slots of [lo, hi] without a visible bank, counted. */
  ghost function Vacant(banks: seq<Bank>, lo: int, hi: int): nat
    decreases if hi < lo then 0 else hi - lo + 1
  {
    if hi < lo then 0
    else Vacant(banks, lo, hi - 1) + if Occupied(banks, hi) then 0 else 1
  }

  ghost predicate Occupied(banks: seq<Bank>, slot: int) {
    exists i :: i in VisibleBanks(banks) && banks[i].slot == slot
  }

  lemma OnlyOneShown(banks: seq<Bank>, i: nat)
    requires OneVisiblePerSlot(banks) && i in VisibleBanks(banks)
    ensures forall j :: j in VisibleBanks(banks) && j != i ==> banks[j].slot != banks[i].slot
  {
    forall j | j in VisibleBanks(banks) && j != i ensures banks[j].slot != banks[i].slot {
      assert if i < j then banks[i].slot != banks[j].slot else banks[j].slot != banks[i].slot;
    }
  }

  lemma WidenWindow(banks: seq<Bank>, lo: int, hi: int)
    requires OneVisiblePerSlot(banks) && lo <= hi
    ensures |VisibleIn(banks, lo, hi)| == |VisibleIn(banks, lo, hi - 1)| + if Occupied(banks, hi) then 1 else 0
  {
    if Occupied(banks, hi) {
      var i :| i in VisibleBanks(banks) && banks[i].slot == hi;
      OnlyOneShown(banks, i);
      assert VisibleIn(banks, lo, hi) == VisibleIn(banks, lo, hi - 1) + {i};
    } else {
      assert VisibleIn(banks, lo, hi) == VisibleIn(banks, lo, hi - 1);
    }
  }

  /** Every slot of [lo, hi] shows one bank or is vacant. */
  lemma {:induction false} WindowIsShared(banks: seq<Bank>, lo: int, hi: int)
    requires OneVisiblePerSlot(banks)
    ensures |VisibleIn(banks, lo, hi)| + Vacant(banks, lo, hi) == if hi < lo then 0 else hi - lo + 1
    decreases if hi < lo then 0 else hi - lo + 1
  {
    if hi < lo {
      assert VisibleIn(banks, lo, hi) == {};
    } else {
      WindowIsShared(banks, lo, hi - 1);
      WidenWindow(banks, lo, hi);
    }
  }

  lemma EvictionLeaves(cfg: Config, s: State)
    requires Inv(cfg, s)
    ensures VisibleBanks(EvictOf(cfg, s).banks)
            == VisibleIn(s.banks, HeadLo(cfg, s), HeadHi(cfg, s)) + VisibleAbove(s.banks, HeadHi(cfg, s))
  {
    var out := EvictOf(cfg, s).banks;
    forall i ensures i in VisibleBanks(out) <==> i in VisibleBanks(s.banks) && HeadLo(cfg, s) <= s.banks[i].slot {
    }
  }

  /** Exactly when an eviction leaves at most `retain` visible banks: if and only if the banks above
      the newest head slot are no more than the vacant slots of the head window. */
  lemma EvictionBoundsHeadIff(cfg: Config, s: State)
    requires Inv(cfg, s)
    ensures |VisibleBanks(EvictOf(cfg, s).banks)| <= cfg.retain <==>
              |VisibleAbove(s.banks, HeadHi(cfg, s))| <= Vacant(s.banks, HeadLo(cfg, s), HeadHi(cfg, s))
  {
    var lo, hi := HeadLo(cfg, s), HeadHi(cfg, s);
    EvictionLeaves(cfg, s);
    WindowIsShared(s.banks, lo, hi);
    assert VisibleIn(s.banks, lo, hi) !! VisibleAbove(s.banks, hi);
    assert s.dropTip.None? ==> hi - lo + 1 == cfg.retain;
    if s.dropTip.Some? {
      assert VisibleBanks(s.banks) == {};
      assert VisibleAbove(s.banks, hi) == {} && VisibleIn(s.banks, lo, hi) == {};
    }
  }

  /** In particular it does when none was visible above the newest head slot. */
  lemma EvictionBoundsHead(cfg: Config, s: State)
    requires Reachable(cfg, s)
    requires BelowHead(cfg, s)
    ensures |VisibleBanks(EvictOf(cfg, s).banks)| <= cfg.retain
  {
    ReachableInv(cfg, s);
    EvictionBoundsHeadIff(cfg, s);
    assert VisibleAbove(s.banks, HeadHi(cfg, s)) == {};
  }

  /** The bank that an operation may show. */
  predicate Shows(op: Op, i: nat) {
    (op.Publish? || op.Commit?) && op.i == i
  }

  lemma PublishShowsOnly(cfg: Config, s: State, j: nat, i: nat)
    requires i < |s.banks| && j < |s.banks|
    ensures |PublishOf(cfg, s, j).banks| == |s.banks| && PublishOf(cfg, s, j).banks[i].slot == s.banks[i].slot
    ensures PublishOf(cfg, s, j).banks[i].status.Visible? ==> s.banks[i].status.Visible? || i == j
  {
  }

  lemma CommitShowsOnly(cfg: Config, s: State, j: nat, token: Token, i: nat)
    requires i < |s.banks| && j < |s.banks|
    ensures |CommitOf(cfg, s, j, token).banks| == |s.banks|
    ensures CommitOf(cfg, s, j, token).banks[i].slot == s.banks[i].slot
    ensures CommitOf(cfg, s, j, token).banks[i].status.Visible? ==> s.banks[i].status.Visible? || i == j
  {
    var e := ElectOf(s, j, token);
    assert e.banks[i].slot == s.banks[i].slot && (e.banks[i].status.Visible? ==> s.banks[i].status.Visible?);
    PublishShowsOnly(cfg, e, j, i);
    assert CommitOf(cfg, s, j, token).banks == PublishOf(cfg, e, j).banks;
  }

  lemma OnlyNamedBankAppears(cfg: Config, s: State, op: Op, i: nat)
    requires Allowed(s, op) && i < |Apply(cfg, s, op).banks| && Apply(cfg, s, op).banks[i].status.Visible?
    ensures i < |s.banks| && Apply(cfg, s, op).banks[i].slot == s.banks[i].slot
    ensures s.banks[i].status.Visible? || Shows(op, i)
  {
    match op
    case Publish(j) =>
      if i < |s.banks| { PublishShowsOnly(cfg, s, j, i); } else { PublishShowsOnly(cfg, s, j, j); }
    case Commit(j, token) =>
      if i < |s.banks| { CommitShowsOnly(cfg, s, j, token, i); } else { CommitShowsOnly(cfg, s, j, token, j); }
    case _ =>
  }

  /** Banks are only shown at or below the newest head slot, which never goes down. */
  ghost predicate Disciplined(cfg: Config, s: State, ops: seq<Op>)
    decreases |ops|
  {
    ops != [] && Allowed(s, ops[0]) ==>
      && (ops[0].Publish? || ops[0].Commit? ==> s.banks[ops[0].i].slot <= HeadHi(cfg, s))
      && HeadHi(cfg, s) <= HeadHi(cfg, Apply(cfg, s, ops[0]))
      && Disciplined(cfg, Apply(cfg, s, ops[0]), ops[1..])
  }

  lemma {:induction false} RunStaysBelowHead(cfg: Config, s: State, ops: seq<Op>, s': State)
    requires Run(cfg, s, ops, s') && Disciplined(cfg, s, ops) && BelowHead(cfg, s)
    ensures BelowHead(cfg, s')
    decreases |ops|
  {
    if ops != [] {
      var next := Apply(cfg, s, ops[0]);
      forall i | 0 <= i < |next.banks| && next.banks[i].status.Visible?
        ensures next.banks[i].slot <= HeadHi(cfg, next)
      {
        OnlyNamedBankAppears(cfg, s, ops[0], i);
      }
      RunStaysBelowHead(cfg, next, ops[1..], s');
    }
  }

  /** The bound over whole runs: in a disciplined run, which may evict on the way, every eviction
      leaves at most `retain` visible banks. */
  lemma EvictionsBoundHead(cfg: Config, before: seq<Op>, s: State)
    requires Run(cfg, Init(cfg), before, s) && Disciplined(cfg, Init(cfg), before)
    ensures |VisibleBanks(Apply(cfg, s, Evict).banks)| <= cfg.retain
  {
    RunStaysBelowHead(cfg, Init(cfg), before, s);
    EvictionBoundsHead(cfg, s);
  }

  lemma {:induction false} RunSnoc(cfg: Config, s: State, ops: seq<Op>, s': State, op: Op)
    requires Run(cfg, s, ops, s') && Allowed(s', op)
    ensures Run(cfg, s, ops + [op], Apply(cfg, s', op))
    decreases |ops|
  {
    if ops == [] {
      assert ops + [op] == [op] && [op][1..] == [];
    } else {
      RunSnoc(cfg, Apply(cfg, s, ops[0]), ops[1..], s', op);
      assert (ops + [op])[1..] == ops[1..] + [op];
    }
  }

  lemma Then(cfg: Config, s: State, op: Op)
    requires Reachable(cfg, s) && Allowed(s, op)
    ensures Reachable(cfg, Apply(cfg, s, op))
  {
    var ops :| Run(cfg, Init(cfg), ops, s);
    RunSnoc(cfg, Init(cfg), ops, s, op);
  }

  lemma NewVisibleBank(cfg: Config, s: State, id: BankId, slot: nat)
    requires Reachable(cfg, s) && s.dropTip.None? && s.tx.None?
    requires forall k :: 0 <= k < |s.banks| ==> s.banks[k].id != id && s.banks[k].slot != slot
    ensures Reachable(cfg, s.(banks := s.banks + [Bank(id, slot, Visible, Some(Finalized), false)]))
  {
    var n := |s.banks|;
    var s1 := Apply(cfg, s, Create(id, slot, false));
    Then(cfg, s, Create(id, slot, false));
    var s2 := s.(banks := s.banks + [Bank(id, slot, Frozen, Some(Processed), false)]);
    assert Apply(cfg, s1, Freeze(n)) == s2;
    Then(cfg, s1, Freeze(n));
    NewWinner(cfg, s, s2);
    Then(cfg, s2, Commit(n, Finalized));
  }

  lemma NewWinner(cfg: Config, s: State, s2: State)
    requires |s2.banks| == |s.banks| + 1 && s2 == s.(banks := s2.banks) && s2.banks[..|s.banks|] == s.banks
    requires s2.dropTip.None? && s2.tx.None?
    requires s2.banks[|s.banks|].status.Frozen? && !s2.banks[|s.banks|].hasTx
    requires forall k :: 0 <= k < |s.banks| ==> s.banks[k].slot != s2.banks[|s.banks|].slot
    ensures CommitOf(cfg, s2, |s.banks|, Finalized)
            == s.(banks := s.banks + [s2.banks[|s.banks|].(status := Visible, token := Some(Finalized))])
  {
    var n := |s.banks|;
    forall k | 0 <= k < n ensures s2.banks[k] == s.banks[k] {
      assert s2.banks[..n][k] == s2.banks[k];
    }
    assert DiscardRivals(s2.banks, n) == s2.banks;
    var e := ElectOf(s2, n, Finalized);
    assert e.banks == s.banks + [s2.banks[n].(token := Some(Finalized))];
    var winner := s2.banks[n].(status := Visible, token := Some(Finalized));
    assert CommitOf(cfg, s2, n, Finalized).banks == s.banks + [winner];
  }

  /** Finalized banks of the slots 1 to `n`, as they look when shown. */
  function Shown(n: nat): (banks: seq<Bank>)
    ensures |banks| == n
    ensures forall k :: 0 <= k < n ==> banks[k] == Bank(k, k + 1, Visible, Some(Finalized), false)
  {
    seq(n, (k: nat) => Bank(k, k + 1, Visible, Some(Finalized), false))
  }

  lemma {:induction false} ManyAboveHead(cfg: Config, n: nat)
    ensures Reachable(cfg, Init(cfg).(banks := Shown(n)))
  {
    var s := Init(cfg);
    if n == 0 {
      assert Run(cfg, s, [], s) && s.banks == Shown(0);
    } else {
      ManyAboveHead(cfg, n - 1);
      NewVisibleBank(cfg, s.(banks := Shown(n - 1)), n - 1, n);
      assert Shown(n) == Shown(n - 1) + [Bank(n - 1, n, Visible, Some(Finalized), false)];
    }
  }

  /** Without that proviso the bound fails, whatever the configuration: banks above the newest head
      slot stay visible. */
  lemma PublishingAboveHeadBreaksBound(cfg: Config)
    ensures exists s :: Reachable(cfg, s) && |VisibleBanks(EvictOf(cfg, s).banks)| > cfg.retain
  {
    var n := cfg.retain + 1;
    var s := Init(cfg).(banks := Shown(n));
    ManyAboveHead(cfg, n);
    var out := EvictOf(cfg, s).banks;
    assert forall k :: 0 <= k < n ==> out[k].status.Visible?;
    FirstNumbers(n, VisibleBanks(out));
  }

  lemma {:induction false} FirstNumbers(n: nat, all: set<nat>)
    requires forall k :: 0 <= k < n ==> k in all
    ensures |all| >= n
  {
    if n > 0 {
      FirstNumbers(n - 1, all - {n - 1});
    }
  }
}
