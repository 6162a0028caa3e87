/** One transaction's banks through the head cache, the disk cache and ClickHouse
    (site/js/alpenglow-model.js, class `World`, `dropped` and `answerRead`). */
module Alpenglow {
  import opened Basics

  datatype Token = Processed | Confirmed | Finalized

  function Rank(t: Token): nat {
    match t
    case Processed => 0
    case Confirmed => 1
    case Finalized => 2
  }

  predicate Meets(token: Option<Token>, level: Token) {
    token.Some? && Rank(token.value) >= Rank(level)
  }

  predicate Committed(token: Option<Token>) {
    Meets(token, Confirmed)
  }

  datatype Status = Staged | Frozen | Held | Visible | Discarded | Cleared | Evicted

  type BankId = nat

  /** One version of a slot. */
  datatype Bank = Bank(id: BankId, slot: nat, status: Status, token: Option<Token>, hasTx: bool)

  /** Where the head cache says the transaction is. */
  datatype Projection = Projection(slot: nat, bank: BankId)

  /** Consensus era, `HEAD_CACHE_MIN_COMMITMENT` and the head window's size. */
  datatype Config = Config(tower: bool, min: Token, retain: nat)

  datatype State = State(
    banks: seq<Bank>,
    tx: Option<Projection>,
    stored: map<nat, BankId>,
    disk: set<nat>,
    dropTip: Option<int>,
    tip: int,
    fin: int)

  function Init(cfg: Config): State {
    State([], None, map[], {}, None, 0, if cfg.tower then -32 else -1)
  }

  // ---- Lookups --------------------------------------------------------------------

  /** `Array.prototype.find`, as an index. */
  function First(banks: seq<Bank>, p: Bank -> bool, k: nat): (r: Option<nat>)
    requires k <= |banks|
    ensures r.Some? ==> k <= r.value < |banks| && p(banks[r.value])
    ensures forall i :: k <= i < |banks| && (r.None? || i < r.value) ==> !p(banks[i])
    decreases |banks| - k
  {
    if k == |banks| then None
    else if p(banks[k]) then Some(k)
    else First(banks, p, k + 1)
  }

  function BankAt(banks: seq<Bank>, id: BankId): (r: Option<nat>)
    ensures r.Some? ==> r.value < |banks| && banks[r.value].id == id
    ensures r.None? ==> forall i :: 0 <= i < |banks| ==> banks[i].id != id
  {
    First(banks, (b: Bank) => b.id == id, 0)
  }

  function VisibleAt(banks: seq<Bank>, slot: nat): (r: Option<nat>)
    ensures r.Some? ==> r.value < |banks| && banks[r.value].slot == slot && banks[r.value].status.Visible?
    ensures r.None? ==> forall i :: 0 <= i < |banks| ==> !(banks[i].slot == slot && banks[i].status.Visible?)
  {
    First(banks, (b: Bank) => b.slot == slot && b.status.Visible?, 0)
  }

  function FinalizedAt(banks: seq<Bank>, slot: nat): (r: Option<nat>)
    ensures r.Some? ==> r.value < |banks| && banks[r.value].slot == slot && banks[r.value].token == Some(Finalized)
    ensures r.None? ==> forall i :: 0 <= i < |banks| ==> !(banks[i].slot == slot && banks[i].token == Some(Finalized))
  {
    First(banks, (b: Bank) => b.slot == slot && b.token == Some(Finalized), 0)
  }

  // ---- Operations on values ---------------------------------------------------------

  function SetStatus(s: State, i: nat, status: Status): State
    requires i < |s.banks|
  {
    s.(banks := s.banks[i := s.banks[i].(status := status)])
  }

  /** Whether the index moves to `bank`: within its slot always, to another slot only from a bank
      that is gone or, when `bank` is committed, from one that is still processed. */
  predicate Wins(s: State, i: nat)
    requires i < |s.banks|
  {
    || s.tx.None?
    || s.tx.value.slot == s.banks[i].slot
    || (match BankAt(s.banks, s.tx.value.bank)
        case None => true
        case Some(o) =>
          || !s.banks[o].status.Visible?
          || (Committed(s.banks[i].token) && s.banks[o].token == Some(Processed)))
  }

  function ProjectOf(s: State, i: nat): State
    requires i < |s.banks|
  {
    if Wins(s, i) then s.(tx := Some(Projection(s.banks[i].slot, s.banks[i].id))) else s
  }

  function ShowOf(s: State, i: nat): State
    requires i < |s.banks|
  {
    var s' := SetStatus(s, i, Visible);
    if s.banks[i].hasTx then ProjectOf(s', i) else s'
  }

  function PublishOf(cfg: Config, s: State, i: nat): State
    requires i < |s.banks|
  {
    var bank := s.banks[i];
    if bank.status.Discarded? || bank.status.Cleared? then s
    else if s.dropTip.Some? then s
    else if !Meets(bank.token, cfg.min) then SetStatus(s, i, Held)
    else
      var current := VisibleAt(s.banks, bank.slot);
      if current.Some? && current.value != i then
        if bank.token == Some(Processed) then SetStatus(s, i, Held)
        else ShowOf(SetStatus(s, current.value, Discarded), i)
      else ShowOf(s, i)
  }

  function DiscardIf(b: Bank, doomed: bool): Bank {
    if doomed && !b.status.Cleared? then b.(status := Discarded) else b
  }

  function DiscardRivals(banks: seq<Bank>, i: nat): (r: seq<Bank>)
    requires i < |banks|
    ensures |r| == |banks|
    ensures forall k :: 0 <= k < |r| ==> r[k] == DiscardIf(banks[k], banks[k].slot == banks[i].slot && k != i)
  {
    seq(|banks|, k requires 0 <= k < |banks| => DiscardIf(banks[k], banks[k].slot == banks[i].slot && k != i))
  }

  /** Forget the index when the bank it names was discarded. */
  function DropDiscardedIndex(s: State): State {
    if s.tx.Some? && BankAt(s.banks, s.tx.value.bank).Some?
       && s.banks[BankAt(s.banks, s.tx.value.bank).value].status.Discarded?
    then s.(tx := None) else s
  }

  /** The slot has a winner: the others are out, and an index that named one of them is gone. */
  function ElectOf(s: State, i: nat, token: Token): State
    requires i < |s.banks|
  {
    var s1 := DropDiscardedIndex(s.(banks := DiscardRivals(s.banks, i)));
    s1.(banks := s1.banks[i := s1.banks[i].(token := Some(token))])
  }

  function ReclaimOf(s: State, i: nat): State
    requires i < |s.banks|
  {
    if s.banks[i].status.Visible? && s.banks[i].hasTx then ProjectOf(s, i) else s
  }

  function CommitOf(cfg: Config, s: State, i: nat, token: Token): State
    requires i < |s.banks|
  {
    ReclaimOf(PublishOf(cfg, ElectOf(s, i, token), i), i)
  }

  function DiscardSlotBanks(banks: seq<Bank>, slot: nat): (r: seq<Bank>)
    ensures |r| == |banks|
    ensures forall k :: 0 <= k < |r| ==> r[k] == DiscardIf(banks[k], banks[k].slot == slot)
  {
    seq(|banks|, k requires 0 <= k < |banks| => DiscardIf(banks[k], banks[k].slot == slot))
  }

  function DiscardSlotOf(s: State, slot: nat): State {
    s.(banks := DiscardSlotBanks(s.banks, slot),
       tx := if s.tx.Some? && s.tx.value.slot == slot then None else s.tx)
  }

  /** The upper end of the head window. */
  function HeadHi(cfg: Config, s: State): int {
    match cfg.min
    case Processed => s.tip
    case Confirmed => if cfg.tower then s.tip - 1 else s.fin
    case Finalized => s.fin
  }

  function HeadLo(cfg: Config, s: State): int {
    var lo := HeadHi(cfg, s) - (cfg.retain - 1);
    if s.dropTip.Some? && s.dropTip.value + 1 > lo then s.dropTip.value + 1 else lo
  }

  function EvictIf(b: Bank, lo: int): Bank {
    if b.status.Visible? && b.slot < lo then b.(status := Evicted) else b
  }

  function EvictBanks(banks: seq<Bank>, lo: int): (r: seq<Bank>)
    ensures |r| == |banks|
    ensures forall k :: 0 <= k < |r| ==> r[k] == EvictIf(banks[k], lo)
  {
    seq(|banks|, k requires 0 <= k < |banks| => EvictIf(banks[k], lo))
  }

  function EvictOf(cfg: Config, s: State): State {
    var lo := HeadLo(cfg, s);
    s.(banks := EvictBanks(s.banks, lo), tx := if s.tx.Some? && s.tx.value.slot < lo then None else s.tx)
  }

  function ClearIf(b: Bank): Bank {
    if b.status.Discarded? then b else b.(status := Cleared)
  }

  function ClearBanks(banks: seq<Bank>): (r: seq<Bank>)
    ensures |r| == |banks|
    ensures forall k :: 0 <= k < |r| ==> r[k] == ClearIf(banks[k])
  {
    seq(|banks|, k requires 0 <= k < |banks| => ClearIf(banks[k]))
  }

  function DropOf(s: State): State {
    s.(dropTip := Some(s.tip), banks := ClearBanks(s.banks), tx := None)
  }

  // ---- Runs -------------------------------------------------------------------------

  datatype Op =
    | Create(id: BankId, slot: nat, hasTx: bool)
    | Freeze(i: nat)
    | Publish(i: nat)
    | Commit(i: nat, token: Token)
    | DiscardSlot(slot: nat)
    | Advance(tip: int, fin: int)
    | Evict
    | DropStream
    | Ingest(slot: nat)
    | CopyToDisk(slot: nat)

  /** What consensus and the stream promise: bank ids are fresh, only frozen banks are committed,
      a token never goes down, at most one bank per slot is ever committed, and `publish` is
      called on its own only for a bank that has just frozen. */
  ghost predicate Allowed(s: State, op: Op) {
    match op
    case Create(id, _, _) => forall k :: 0 <= k < |s.banks| ==> s.banks[k].id != id
    case Freeze(i) => i < |s.banks| && s.banks[i].status.Staged?
    case Publish(i) => i < |s.banks| && s.banks[i].status.Frozen? && s.banks[i].token == Some(Processed)
    case Commit(i, token) =>
      && i < |s.banks|
      && token != Processed
      && s.banks[i].token.Some?
      && Rank(s.banks[i].token.value) <= Rank(token)
      && forall k :: 0 <= k < |s.banks| && k != i && s.banks[k].slot == s.banks[i].slot ==> !Committed(s.banks[k].token)
    case Ingest(slot) => FinalizedAt(s.banks, slot).Some?
    case _ => true
  }

  ghost function Apply(cfg: Config, s: State, op: Op): State
    requires Allowed(s, op)
  {
    match op
    case Create(id, slot, hasTx) => s.(banks := s.banks + [Bank(id, slot, Staged, None, hasTx)])
    case Freeze(i) => s.(banks := s.banks[i := s.banks[i].(status := Frozen, token := Some(Processed))])
    case Publish(i) => PublishOf(cfg, s, i)
    case Commit(i, token) => CommitOf(cfg, s, i, token)
    case DiscardSlot(slot) => DiscardSlotOf(s, slot)
    case Advance(tip, fin) => s.(tip := tip, fin := fin)
    case Evict => EvictOf(cfg, s)
    case DropStream => DropOf(s)
    case Ingest(slot) => s.(stored := s.stored[slot := s.banks[FinalizedAt(s.banks, slot).value].id])
    case CopyToDisk(slot) => s.(disk := s.disk + {slot})
  }

  ghost predicate Run(cfg: Config, s: State, ops: seq<Op>, s': State)
    decreases |ops|
  {
    if ops == [] then s == s'
    else Allowed(s, ops[0]) && Run(cfg, Apply(cfg, s, ops[0]), ops[1..], s')
  }

  ghost predicate Reachable(cfg: Config, s: State) {
    exists ops :: Run(cfg, Init(cfg), ops, s)
  }

  // ---- The invariant ------------------------------------------------------------------

  ghost predicate UniqueIds(banks: seq<Bank>) {
    forall i, j :: 0 <= i < j < |banks| ==> banks[i].id != banks[j].id
  }

  ghost predicate OneVisiblePerSlot(banks: seq<Bank>) {
    forall i, j :: 0 <= i < j < |banks| && banks[i].status.Visible? && banks[j].status.Visible? ==>
      banks[i].slot != banks[j].slot
  }

  ghost predicate OneCommittedPerSlot(banks: seq<Bank>) {
    forall i, j :: 0 <= i < j < |banks| && Committed(banks[i].token) && Committed(banks[j].token) ==>
      banks[i].slot != banks[j].slot
  }

  ghost predicate StagedHasNoToken(banks: seq<Bank>) {
    forall i :: 0 <= i < |banks| && banks[i].status.Staged? ==> banks[i].token.None?
  }

  ghost predicate VisibleMeetsMin(cfg: Config, banks: seq<Bank>) {
    forall i :: 0 <= i < |banks| && banks[i].status.Visible? ==> Meets(banks[i].token, cfg.min)
  }

  /** The index is empty or names a visible bank of its slot that holds the transaction. */
  ghost predicate Indexes(banks: seq<Bank>, p: Projection, i: nat) {
    i < |banks| && banks[i].id == p.bank && banks[i].slot == p.slot && banks[i].status.Visible? && banks[i].hasTx
  }

  ghost predicate IndexOk(s: State) {
    s.tx.Some? ==> exists i :: Indexes(s.banks, s.tx.value, i)
  }

  ghost predicate DroppedIsEmpty(s: State) {
    s.dropTip.Some? ==> s.tx.None? && forall i :: 0 <= i < |s.banks| ==> !s.banks[i].status.Visible?
  }

  ghost predicate StoredIsFinalized(s: State) {
    forall slot :: slot in s.stored ==> exists i :: Stores(s.banks, slot, s.stored[slot], i)
  }

  ghost predicate Stores(banks: seq<Bank>, slot: nat, id: BankId, i: nat) {
    i < |banks| && banks[i].id == id && banks[i].slot == slot && banks[i].token == Some(Finalized)
  }

  ghost predicate Inv(cfg: Config, s: State) {
    && UniqueIds(s.banks)
    && OneVisiblePerSlot(s.banks)
    && OneCommittedPerSlot(s.banks)
    && StagedHasNoToken(s.banks)
    && VisibleMeetsMin(cfg, s.banks)
    && IndexOk(s)
    && DroppedIsEmpty(s)
    && StoredIsFinalized(s)
  }
}
