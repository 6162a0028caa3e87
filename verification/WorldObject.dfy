/** The mutable world that the lifecycle steps are authored against, operation by operation, each
    proved to do what its counterpart on values does. */
module AlpenglowWorld {
  import opened Basics
  import opened Alpenglow
  import opened AlpenglowResults

  class World {
    const cfg: Config
    var banks: seq<Bank>
    var tx: Option<Projection>
    var stored: map<nat, BankId>
    var disk: set<nat>
    var dropTip: Option<int>
    var tip: int
    var fin: int

    function Value(): State
      reads this
    {
      State(banks, tx, stored, disk, dropTip, tip, fin)
    }

    constructor (cfg: Config)
      ensures this.cfg == cfg && Value() == Init(cfg)
    {
      this.cfg := cfg;
      banks, tx, stored, disk, dropTip := [], None, map[], {}, None;
      tip, fin := 0, if cfg.tower then -32 else -1;
    }

    /** A new bank; without replayed content it has no token yet. */
    method AddBank(id: BankId, slot: nat, hasTx: bool)
      modifies this`banks
      ensures banks == old(banks) + [Bank(id, slot, Staged, None, hasTx)]
      ensures Allowed(old(Value()), Create(id, slot, hasTx)) ==>
                Value() == Apply(cfg, old(Value()), Create(id, slot, hasTx))
    {
      banks := banks + [Bank(id, slot, Staged, None, hasTx)];
    }

    method Freeze(i: nat)
      requires i < |banks|
      modifies this`banks
      ensures banks == old(banks)[i := old(banks)[i].(status := Frozen, token := Some(Processed))]
      ensures Allowed(old(Value()), Op.Freeze(i)) ==> Value() == Apply(cfg, old(Value()), Op.Freeze(i))
    {
      banks := banks[i := banks[i].(status := Frozen, token := Some(Processed))];
    }

    method At(tip: int, fin: int)
      modifies this`tip, this`fin
      ensures Value() == Apply(cfg, old(Value()), Advance(tip, fin))
      ensures this.tip == tip && this.fin == fin
    {
      this.tip, this.fin := tip, fin;
    }

    method CopyToDisk(slot: nat)
      modifies this`disk
      ensures Value() == Apply(cfg, old(Value()), Op.CopyToDisk(slot))
      ensures forall x :: x in disk <==> x in old(disk) || x == slot
    {
      disk := disk + {slot};
    }

    method Publish(i: nat)
      requires i < |banks|
      modifies this
      ensures Value() == PublishOf(cfg, old(Value()), i)
    {
      var bank := banks[i];
      if bank.status.Discarded? || bank.status.Cleared? {
        return;
      }
      if dropTip.Some? {
        return;
      }
      if !Meets(bank.token, cfg.min) {
        banks := banks[i := bank.(status := Held)];
        return;
      }
      var current := VisibleAt(banks, bank.slot);
      if current.Some? && current.value != i {
        if bank.token == Some(Processed) {
          banks := banks[i := bank.(status := Held)];
          return;
        }
        banks := banks[current.value := banks[current.value].(status := Discarded)];
      }
      banks := banks[i := banks[i].(status := Visible)];
      if bank.hasTx {
        Project(i);
      }
    }

    method Project(i: nat)
      requires i < |banks|
      modifies this`tx
      ensures Value() == ProjectOf(old(Value()), i)
    {
      var bank := banks[i];
      if tx.None? || tx.value.slot == bank.slot {
        tx := Some(Projection(bank.slot, bank.id));
        return;
      }
      var o := BankAt(banks, tx.value.bank);
      if o.None? || !banks[o.value].status.Visible?
         || (Committed(bank.token) && banks[o.value].token == Some(Processed))
      {
        tx := Some(Projection(bank.slot, bank.id));
      }
    }

    /** The first half of `commit`: discard the slot's other banks and raise the token. */
    method Elect(i: nat, token: Token)
      requires i < |banks|
      modifies this`banks, this`tx
      ensures Value() == ElectOf(old(Value()), i, token)
    {
      ghost var before := banks;
      for k := 0 to |banks|
        invariant Value() == old(Value()).(banks := banks) && |banks| == |before|
        invariant forall j :: k <= j < |banks| ==> banks[j] == before[j]
        invariant forall j :: 0 <= j < k ==> banks[j] == DiscardRivals(before, i)[j]
      {
        assert banks[i] == before[i];
        if banks[k].slot == banks[i].slot && k != i && !banks[k].status.Cleared? {
          banks := banks[k := banks[k].(status := Discarded)];
        }
      }
      assert banks == DiscardRivals(before, i);
      if tx.Some? {
        var o := BankAt(banks, tx.value.bank);
        if o.Some? && banks[o.value].status.Discarded? {
          tx := None;
        }
      }
      banks := banks[i := banks[i].(token := Some(token))];
    }

    method Commit(i: nat, token: Token)
      requires i < |banks|
      modifies this
      ensures Value() == CommitOf(cfg, old(Value()), i, token)
    {
      Elect(i, token);
      Publish(i);
      if banks[i].status.Visible? && banks[i].hasTx {
        Project(i);
      }
    }

    method DiscardSlot(slot: nat)
      modifies this
      ensures Value() == DiscardSlotOf(old(Value()), slot)
    {
      ghost var before := banks;
      for k := 0 to |banks|
        invariant Value() == old(Value()).(banks := banks) && |banks| == |before|
        invariant forall j :: k <= j < |banks| ==> banks[j] == before[j]
        invariant forall j :: 0 <= j < k ==> banks[j] == DiscardSlotBanks(before, slot)[j]
      {
        if banks[k].slot == slot && !banks[k].status.Cleared? {
          banks := banks[k := banks[k].(status := Discarded)];
        }
      }
      assert banks == DiscardSlotBanks(before, slot);
      if tx.Some? && tx.value.slot == slot {
        tx := None;
      }
    }

    method HeadWindow() returns (lo: int, hi: int)
      ensures lo == HeadLo(cfg, Value()) && hi == HeadHi(cfg, Value())
      ensures cfg.min.Processed? ==> hi == tip
      ensures cfg.min.Finalized? || (cfg.min.Confirmed? && !cfg.tower) ==> hi == fin
      ensures cfg.min.Confirmed? && cfg.tower ==> hi == tip - 1
      ensures lo > hi - cfg.retain && (dropTip.Some? ==> lo > dropTip.value)
      ensures lo == hi - cfg.retain + 1 || (dropTip.Some? && lo == dropTip.value + 1)
    {
      hi := match cfg.min
        case Processed => tip
        case Confirmed => if cfg.tower then tip - 1 else fin
        case Finalized => fin;
      lo := hi - (cfg.retain - 1);
      if dropTip.Some? {
        lo := if dropTip.value + 1 > lo then dropTip.value + 1 else lo;
      }
    }

    method Evict()
      modifies this
      ensures Value() == EvictOf(cfg, old(Value()))
    {
      var lo, _ := HeadWindow();
      ghost var before := banks;
      for k := 0 to |banks|
        invariant Value() == old(Value()).(banks := banks) && |banks| == |before|
        invariant forall j :: k <= j < |banks| ==> banks[j] == before[j]
        invariant forall j :: 0 <= j < k ==> banks[j] == EvictBanks(before, lo)[j]
      {
        if banks[k].status.Visible? && banks[k].slot < lo {
          banks := banks[k := banks[k].(status := Evicted)];
        }
      }
      assert banks == EvictBanks(before, lo);
      if tx.Some? && tx.value.slot < lo {
        tx := None;
      }
    }

    method DropStream()
      modifies this
      ensures Value() == DropOf(old(Value()))
    {
      dropTip := Some(tip);
      ghost var before := banks;
      for k := 0 to |banks|
        invariant Value() == old(Value()).(banks := banks, dropTip := Some(old(tip))) && |banks| == |before|
        invariant forall j :: k <= j < |banks| ==> banks[j] == before[j]
        invariant forall j :: 0 <= j < k ==> banks[j] == ClearBanks(before)[j]
      {
        if !banks[k].status.Discarded? {
          banks := banks[k := banks[k].(status := Cleared)];
        }
      }
      assert banks == ClearBanks(before);
      tx := None;
    }

    /** Without a finalized bank of the slot the original throws before it writes. */
    method Ingest(slot: nat) returns (ok: bool)
      modifies this`stored
      ensures ok <==> FinalizedAt(banks, slot).Some?
      ensures stored == if ok then old(stored)[slot := banks[FinalizedAt(banks, slot).value].id] else old(stored)
    {
      var bank := FinalizedAt(banks, slot);
      ok := bank.Some?;
      if ok {
        stored := stored[slot := banks[bank.value].id];
      }
    }

    /** `getTransaction`: the head index if its bank meets the commitment asked for, otherwise the
        newest stored slot whose bank holds the transaction. */
    method AnswerTransaction(read: Token) returns (r: Option<Answer>)
      ensures var o := if tx.Some? then BankAt(banks, tx.value.bank) else None;
              if o.Some? && Meets(banks[o.value].token, read)
              then r == Some(Answer(Head, tx.value.slot, banks[o.value].id, banks[o.value].token.value))
              else
                && (r.None? ==> forall slot :: slot in stored ==> !HoldsTx(slot))
                && (r.Some? ==>
                      && r.value.slot in stored && HoldsTx(r.value.slot)
                      && r.value == Answer(if r.value.slot in disk then Disk else ClickHouse,
                                           r.value.slot, stored[r.value.slot], Finalized)
                      && forall slot :: slot in stored && HoldsTx(slot) ==> slot <= r.value.slot)
    {
      if tx.Some? {
        var o := BankAt(banks, tx.value.bank);
        if o.Some? && Meets(banks[o.value].token, read) {
          return Some(Answer(Head, tx.value.slot, banks[o.value].id, banks[o.value].token.value));
        }
      }
      var newest: Option<nat> := None;
      var todo := stored.Keys;
      while todo != {}
        invariant todo <= stored.Keys
        invariant newest.Some? ==> newest.value in stored && HoldsTx(newest.value)
        invariant forall slot :: slot in stored && slot !in todo && HoldsTx(slot) ==>
                    newest.Some? && slot <= newest.value
        decreases |todo|
      {
        var slot :| slot in todo;
        todo := todo - {slot};
        var b := BankAt(banks, stored[slot]);
        if b.Some? && banks[b.value].hasTx && (newest.None? || newest.value < slot) {
          newest := Some(slot);
        }
      }
      if newest.Some? {
        var slot := newest.value;
        r := Some(Answer(if slot in disk then Disk else ClickHouse, slot, stored[slot], Finalized));
      } else {
        r := None;
      }
    }

    predicate HoldsTx(slot: nat)
      reads this
      requires slot in stored
    {
      BankAt(banks, stored[slot]).Some? && banks[BankAt(banks, stored[slot]).value].hasTx
    }
  }
}
