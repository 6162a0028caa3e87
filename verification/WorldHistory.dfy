/** What stays readable in the Alpenglow page's model once it is stored. */
module AlpenglowHistory {
  import opened Basics
  import opened Alpenglow
  import opened AlpenglowResults

  lemma PublishKeepsRows(cfg: Config, s: State, i: nat)
    requires i < |s.banks|
    ensures PublishOf(cfg, s, i).stored == s.stored && PublishOf(cfg, s, i).disk == s.disk
    ensures |PublishOf(cfg, s, i).banks| == |s.banks|
  {
  }

  lemma CommitKeepsRows(cfg: Config, s: State, i: nat, token: Token)
    requires i < |s.banks|
    ensures CommitOf(cfg, s, i, token).stored == s.stored && CommitOf(cfg, s, i, token).disk == s.disk
  {
    PublishKeepsRows(cfg, ElectOf(s, i, token), i);
  }

  /** Storing a slot again stores the same bank: there is only one. */
  lemma SameFinalizedBank(cfg: Config, s: State, slot: nat)
    requires Inv(cfg, s) && slot in s.stored && FinalizedAt(s.banks, slot).Some?
    ensures s.banks[FinalizedAt(s.banks, slot).value].id == s.stored[slot]
  {
    var i: nat :| Stores(s.banks, slot, s.stored[slot], i);
    var j := FinalizedAt(s.banks, slot).value;
    assert Committed(s.banks[i].token) && Committed(s.banks[j].token);
    assert i == j;
  }

  lemma StoredStays(cfg: Config, s: State, op: Op, slot: nat)
    requires Inv(cfg, s) && Allowed(s, op) && slot in s.stored
    ensures slot in Apply(cfg, s, op).stored && Apply(cfg, s, op).stored[slot] == s.stored[slot]
    ensures s.disk <= Apply(cfg, s, op).disk
  {
    match op
    case Publish(i) => PublishKeepsRows(cfg, s, i);
    case Commit(i, token) => CommitKeepsRows(cfg, s, i, token);
    case Ingest(x) =>
      if x == slot { SameFinalizedBank(cfg, s, slot); }
    case _ =>
  }

  lemma {:induction false} RowStays(cfg: Config, s: State, ops: seq<Op>, s': State, slot: nat)
    requires Inv(cfg, s) && Run(cfg, s, ops, s') && slot in s.stored
    ensures slot in s'.stored && s'.stored[slot] == s.stored[slot] && s.disk <= s'.disk
    decreases |ops|
  {
    if ops != [] {
      StoredStays(cfg, s, ops[0], slot);
      StepKeepsInv(cfg, s, ops[0]);
      RowStays(cfg, Apply(cfg, s, ops[0]), ops[1..], s', slot);
    }
  }

  /** A stored slot stays readable for good, whatever is dropped, evicted, discarded or published
      later: `getBlock` answers at confirmed and finalized, always with the stored bank, and once the
      row has been copied to disk never from ClickHouse. */
  lemma StoredIsReadableForever(cfg: Config, s: State, ops: seq<Op>, s': State, slot: nat, read: Token)
    requires Reachable(cfg, s) && Run(cfg, s, ops, s') && slot in s.stored && read != Processed
    ensures AnswerBlock(s', slot, read).Some? && AnswerBlock(s', slot, read).value.bank == s.stored[slot]
    ensures slot in s.disk ==> !AnswerBlock(s', slot, read).value.tier.ClickHouse?
  {
    ReachableInv(cfg, s);
    RunKeepsInv(cfg, s, ops, s');
    RowStays(cfg, s, ops, s', slot);
    AnswerBlockIsExact(cfg, s', slot, read);
    assert TierBlock(s, ClickHouse, slot, read).value.bank == s.stored[slot];
    BlockReadsAgree(cfg, s, ops, s', slot, ClickHouse, AnswerBlock(s', slot, read).value.tier, read, read);
  }

  /** The steps that store a finalized bank with the transaction everywhere. */
  function Everywhere(cfg: Config, id: BankId, slot: nat): State {
    Init(cfg).(banks := [Bank(id, slot, Visible, Some(Finalized), true)], tx := Some(Projection(slot, id)),
               stored := map[slot := id], disk := {slot})
  }

  /** A transaction can reach all three tiers at once: head index, disk cache and ClickHouse all place
      it in the same slot and bank. */
  lemma TransactionReachesAllTiers(cfg: Config, id: BankId, slot: nat)
    ensures Reachable(cfg, Everywhere(cfg, id, slot))
    ensures var s := Everywhere(cfg, id, slot);
            && IndexAnswers(s, Finalized) && StoredWithTx(s, slot) && LandedOnce(s)
            && s.tx == Some(Projection(slot, s.stored[slot]))
            && TierBlock(s, Disk, slot, Finalized).Some? && TierBlock(s, ClickHouse, slot, Finalized).Some?
  {
    var s0 := Init(cfg);
    assert Run(cfg, s0, [], s0);
    var s1 := s0.(banks := [Bank(id, slot, Staged, None, true)]);
    assert Apply(cfg, s0, Create(id, slot, true)) == s1;
    Then(cfg, s0, Create(id, slot, true));
    var s2 := s0.(banks := [Bank(id, slot, Frozen, Some(Processed), true)]);
    assert Apply(cfg, s1, Freeze(0)) == s2;
    Then(cfg, s1, Freeze(0));
    CommitFirst(cfg, id, slot);
    Then(cfg, s2, Commit(0, Finalized));
    var s3 := s0.(banks := [Bank(id, slot, Visible, Some(Finalized), true)], tx := Some(Projection(slot, id)));
    StoreAndCopy(cfg, s3, id, slot);
    var s := Everywhere(cfg, id, slot);
    assert Stores(s.banks, slot, id, 0) && s.banks[0].hasTx;
  }

  lemma CommitFirst(cfg: Config, id: BankId, slot: nat)
    ensures CommitOf(cfg, Init(cfg).(banks := [Bank(id, slot, Frozen, Some(Processed), true)]), 0, Finalized)
            == Init(cfg).(banks := [Bank(id, slot, Visible, Some(Finalized), true)], tx := Some(Projection(slot, id)))
  {
    var s := Init(cfg).(banks := [Bank(id, slot, Frozen, Some(Processed), true)]);
    assert DiscardRivals(s.banks, 0) == s.banks;
    assert ElectOf(s, 0, Finalized).banks == [Bank(id, slot, Frozen, Some(Finalized), true)];
    assert CommitOf(cfg, s, 0, Finalized).banks == [Bank(id, slot, Visible, Some(Finalized), true)];
  }

  lemma StoreAndCopy(cfg: Config, s: State, id: BankId, slot: nat)
    requires Reachable(cfg, s) && s.banks == [Bank(id, slot, Visible, Some(Finalized), true)]
    requires s.stored == map[] && s.disk == {}
    ensures Reachable(cfg, s.(stored := map[slot := id], disk := {slot}))
  {
    var s1 := s.(stored := map[slot := id]);
    assert FinalizedAt(s.banks, slot) == Some(0);
    assert Apply(cfg, s, Ingest(slot)) == s1;
    Then(cfg, s, Ingest(slot));
    assert Apply(cfg, s1, CopyToDisk(slot)) == s.(stored := map[slot := id], disk := {slot}) by {
      assert {} + {slot} == {slot};
    }
    Then(cfg, s1, CopyToDisk(slot));
  }
}
