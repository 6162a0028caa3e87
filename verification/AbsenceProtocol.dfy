/** How getSignatureStatuses requests fill and consult the absence cache
    (crates/superbank-rpc/src/handlers/signatures.rs, with status_history_cache.rs), as a transition
    system. Requests interleave with each other, with the growth of the chain and with every tier's
    changes; each read of a tier, each clock read and each cache access is a step of its own.

    Only the finalized chain is modelled. Its slots hold the signatures that landed in them; a
    skipped slot holds none. */
module AbsenceProtocol {
  import opened Basics
  import opened AbsenceProofs

  type RequestId = nat

  /** The disk cache's contiguous span. */
  datatype Span = Span(floor: u64, tip: u64)

  /** The head cache: the oldest slot it keeps, the slot after the newest finalized one it has heard
      of, and the slots it holds and vouches for as finalized; a skipped slot counts as held between
      held neighbours. Slots may arrive in any order, and one that was lost may come back. */
  datatype Head = Head(floor: nat, end: nat, held: set<nat>)

  ghost predicate WellFormed(h: Head) {
    forall slot :: slot in h.held ==> h.floor <= slot < h.end
  }

  /** The newest slot is vouched for, and so is the one before it, if any. */
  predicate Trusted(h: Head) {
    h.end > 0 && h.end - 1 in h.held && (h.end == 1 || h.end - 2 in h.held)
  }

  /** What a request for one signature knows so far: the slot after the head's trusted tip, taken
      before the head lookup if the head was trusted at all; the head that the lookup saw; the span
      that the disk read covered. */
  datatype Request =
    | Began(sig: Signature, end: Option<nat>)
    | NotInHead(sig: Signature, end: Option<nat>, seen: Head)
    | NotOnDisk(sig: Signature, end: Option<nat>, seen: Head, span: Span)
    | Extended(sig: Signature, lookupEnd: nat, seen: Head, span: Span, at: nat)
    | Asking(sig: Signature, tip: u64)
    | NoRow(sig: Signature, tip: u64, at: nat)
    | Skipped(sig: Signature, lookupEnd: nat, seen: Head, span: Span, at: nat)
    | Done

  /** The primary, holding these slots, had no row for the signature. */
  datatype Answer = Answer(sig: Signature, at: nat, held: set<nat>)

  type Chain = seq<set<Signature>>

  /** `answers` remembers every time the primary had no row. */
  datatype World = World(
    chain: Chain,
    primary: set<nat>,
    disk: Option<Span>,
    head: Head,
    reported: nat,
    cache: map<Signature, Absent>,
    requests: map<RequestId, Request>,
    answers: set<Answer>,
    now: nat)

  datatype Event =
    | Extend(block: set<Signature>)      // the chain grows at its tip
    | Ingest(slot: nat)                  // the primary gains a slot
    | Fill(span: Span)                   // the disk cache's span moves
    | Report(slot: nat)                  // this process reads a latest slot from the primary
    | Observe(slot: nat)                 // the head hears that a slot is finalized
    | Publish(slots: set<nat>)           // the head comes to hold finalized slots, in whatever order
    | Retain(floor: nat)                 // the head's retention rises
    | Invalidate(slots: set<nat>)        // the head stops vouching for slots
    | Reconnect                          // the head starts over
    | Begin(r: RequestId, sig: Signature, trusted: bool)
    | LookHead(r: RequestId)
    | ReadDisk(r: RequestId)
    | CheckHead(r: RequestId)
    | Consult(r: RequestId)
    | Ask(r: RequestId)
    | Insert(r: RequestId)
    | Drop(r: RequestId)                 // cancelled, or the primary query failed
    | Lose(sigs: set<Signature>)         // the cache loses entries, any and at any time
    | Tick(ms: nat)

  const EMPTY_HEAD: Head := Head(0, 0, {})

  function Genesis(): World {
    World([], {}, None, EMPTY_HEAD, 0, map[], map[], {}, 0)
  }

  // ---- Steps ------------------------------------------------------------------------

  predicate In(chain: Chain, sig: Signature, slot: nat) {
    slot < |chain| && sig in chain[slot]
  }

  ghost predicate InHead(w: World, sig: Signature) {
    exists slot: nat :: slot in w.head.held && In(w.chain, sig, slot)
  }

  ghost predicate OnDisk(w: World, sig: Signature, span: Span) {
    exists slot: nat :: span.floor <= slot <= span.tip && In(w.chain, sig, slot)
  }

  ghost predicate InPrimary(w: World, sig: Signature) {
    exists slot: nat :: slot in w.primary && In(w.chain, sig, slot)
  }

  /** `head_extends_disk`, after the lookup: a trusted head that has not moved its floor past the end
      of the disk span, whose tip has not fallen behind the one taken before the lookup, and that
      vouches for everything in between; and a primary not known to be ahead of that tip. */
  ghost predicate ExtendsDisk(w: World, lookupEnd: nat, tip: u64) {
    var start := SaturatingAdd(tip, 1);
    && Trusted(w.head)
    && w.head.floor <= start
    && w.reported < lookupEnd <= w.head.end
    && forall slot :: start <= slot < w.head.end ==> slot in w.head.held
  }

  /** What the deployment promises: the primary has all history that the disk cache was filled
      from. */
  ghost predicate Allowed(w: World, e: Event) {
    match e
    case Ingest(slot) => slot < |w.chain|
    case Fill(span) => span.floor <= span.tip && PrimaryHolds(w, span.tip)
    case Report(slot) => slot in w.primary
    case Observe(slot) => slot < |w.chain|
    case Publish(slots) => forall slot :: slot in slots ==> w.head.floor <= slot < w.head.end
    case Retain(floor) => w.head.floor <= floor
    case Begin(r, _, trusted) => r !in w.requests && (trusted ==> Trusted(w.head))
    case LookHead(r) => r in w.requests && w.requests[r].Began?
    case ReadDisk(r) => r in w.requests && w.requests[r].NotInHead?
    case CheckHead(r) => r in w.requests && w.requests[r].NotOnDisk?
    case Consult(r) => r in w.requests && w.requests[r].Extended?
    case Ask(r) => r in w.requests && w.requests[r].Asking?
    case Insert(r) => r in w.requests && w.requests[r].NoRow?
    case Drop(r) => r in w.requests
    case _ => true
  }

  function Goto(w: World, r: RequestId, q: Request): World {
    w.(requests := w.requests[r := q])
  }

  function Kept(h: Head, floor: nat): Head {
    Head(floor, h.end, set slot | slot in h.held && floor <= slot)
  }

  /** A request that finds the signature, or has no disk span to argue with, is done here. */
  ghost function Next(ttl: nat, w: World, q: Request): Request {
    match q
    case Began(sig, end) => if InHead(w, sig) then Done else NotInHead(sig, end, w.head)
    case NotInHead(sig, end, seen) =>
      if w.disk.None? || OnDisk(w, sig, w.disk.value) then Done else NotOnDisk(sig, end, seen, w.disk.value)
    case NotOnDisk(sig, end, seen, span) =>
      if end.Some? && ExtendsDisk(w, end.value, span.tip)
      then Extended(sig, end.value, seen, span, w.now) else Asking(sig, span.tip)
    case Extended(sig, lookupEnd, seen, span, at) =>
      if sig in w.cache && Stands(w.cache[sig], span.floor, at, ttl)
      then Skipped(sig, lookupEnd, seen, span, at) else Asking(sig, span.tip)
    case Asking(sig, tip) => if InPrimary(w, sig) then Done else NoRow(sig, tip, w.now)
    case _ => Done
  }

  ghost function Apply(ttl: nat, w: World, e: Event): World
    requires Allowed(w, e)
  {
    match e
    case Extend(block) => w.(chain := w.chain + [block])
    case Ingest(slot) => w.(primary := w.primary + {slot})
    case Fill(span) => w.(disk := Some(span))
    case Report(slot) => w.(reported := slot)
    case Observe(slot) => w.(head := w.head.(end := if slot < w.head.end then w.head.end else slot + 1))
    case Publish(slots) => w.(head := w.head.(held := w.head.held + slots))
    case Retain(floor) => w.(head := Kept(w.head, floor))
    case Invalidate(slots) => w.(head := w.head.(held := w.head.held - slots))
    case Reconnect => w.(head := EMPTY_HEAD)
    case Begin(r, sig, trusted) => Goto(w, r, Began(sig, if trusted then Some(w.head.end) else None))
    case LookHead(r) => Goto(w, r, Next(ttl, w, w.requests[r]))
    case ReadDisk(r) => Goto(w, r, Next(ttl, w, w.requests[r]))
    case CheckHead(r) => Goto(w, r, Next(ttl, w, w.requests[r]))
    case Consult(r) => Goto(w, r, Next(ttl, w, w.requests[r]))
    case Ask(r) =>
      var sig := w.requests[r].sig;
      Goto(w, r, Next(ttl, w, w.requests[r])).(
        answers := if InPrimary(w, sig) then w.answers else w.answers + {Answer(sig, w.now, w.primary)})
    case Insert(r) =>
      var q := w.requests[r];
      Goto(w, r, Done).(cache := w.cache[q.sig := Absent(q.at, q.tip)])
    case Drop(r) => Goto(w, r, Done)
    case Lose(sigs) => w.(cache := w.cache - sigs)
    case Tick(ms) => w.(now := w.now + ms)
  }

  ghost predicate Run(ttl: nat, w: World, es: seq<Event>, w': World)
    decreases |es|
  {
    if es == [] then w == w'
    else Allowed(w, es[0]) && Run(ttl, Apply(ttl, w, es[0]), es[1..], w')
  }

  ghost predicate Reachable(ttl: nat, w: World) {
    exists es :: Run(ttl, Genesis(), es, w)
  }

  // ---- The invariant ------------------------------------------------------------------

  /** The signature is in no slot from `lo` up to, not including, `hi`. */
  ghost predicate AbsentFrom(chain: Chain, sig: Signature, lo: nat, hi: nat) {
    forall slot: nat :: lo <= slot < hi ==> !In(chain, sig, slot)
  }

  /** The signature is in none of these slots of the chain. */
  ghost predicate AbsentIn(chain: Chain, sig: Signature, slots: set<nat>) {
    forall slot: nat :: slot in slots ==> slot < |chain| && !In(chain, sig, slot)
  }

  ghost predicate PrimaryHolds(w: World, tip: nat) {
    tip < |w.chain| && forall slot: nat :: slot <= tip ==> slot in w.primary
  }

  ghost predicate MissedLocally(w: World, sig: Signature, seen: Head, span: Span) {
    && AbsentIn(w.chain, sig, seen.held)
    && PrimaryHolds(w, span.tip) && AbsentFrom(w.chain, sig, span.floor, span.tip + 1)
  }

  ghost predicate RequestOk(w: World, q: Request) {
    match q
    case NotInHead(sig, _, seen) => AbsentIn(w.chain, sig, seen.held)
    case NotOnDisk(sig, _, seen, span) => MissedLocally(w, sig, seen, span)
    case Extended(sig, _, seen, span, _) => MissedLocally(w, sig, seen, span)
    case Asking(_, tip) => PrimaryHolds(w, tip)
    case NoRow(sig, tip, at) => tip < |w.chain| && AbsentFrom(w.chain, sig, 0, tip + 1) && Answered(w, sig, at)
    case Skipped(sig, _, seen, span, _) =>
      span.tip < |w.chain| && AbsentFrom(w.chain, sig, 0, span.tip + 1) && AbsentIn(w.chain, sig, seen.held)
    case _ => true
  }

  ghost predicate Answered(w: World, sig: Signature, at: nat) {
    exists held :: Answer(sig, at, held) in w.answers
  }

  /** The primary's answer that a skip relies on was younger than the time to live at its check. */
  ghost predicate Young(ttl: nat, w: World, q: Request) {
    q.Skipped? ==> exists a :: a in w.answers && a.sig == q.sig && q.at < a.at + ttl
  }

  ghost predicate AnswersHold(w: World) {
    forall a :: a in w.answers ==> a.at <= w.now && AbsentIn(w.chain, a.sig, a.held)
  }

  /** Every recorded absence is a fact about the immutable part of the chain. */
  ghost predicate EntriesHold(w: World) {
    forall sig :: sig in w.cache ==>
      && w.cache[sig].diskTip < |w.chain| && AbsentFrom(w.chain, sig, 0, w.cache[sig].diskTip + 1)
      && Answered(w, sig, w.cache[sig].at)
  }

  ghost predicate Inv(ttl: nat, w: World) {
    && w.head.end <= |w.chain| && WellFormed(w.head)
    && (forall slot :: slot in w.primary ==> slot < |w.chain|)
    && (w.disk.Some? ==> PrimaryHolds(w, w.disk.value.tip))
    && AnswersHold(w)
    && EntriesHold(w)
    && forall r :: r in w.requests ==> RequestOk(w, w.requests[r]) && Young(ttl, w, w.requests[r])
  }

  /** Chain and primary only gain. */
  ghost predicate Grows(w: World, w': World) {
    && |w.chain| <= |w'.chain| && (forall slot :: 0 <= slot < |w.chain| ==> w'.chain[slot] == w.chain[slot])
    && w.primary <= w'.primary && w.answers <= w'.answers && w.now <= w'.now
  }

  lemma AbsentStable(w: World, w': World, sig: Signature, lo: nat, hi: nat)
    requires Grows(w, w') && AbsentFrom(w.chain, sig, lo, hi) && hi <= |w.chain|
    ensures AbsentFrom(w'.chain, sig, lo, hi)
  {
    assert forall slot: nat :: slot < hi ==> (In(w'.chain, sig, slot) <==> In(w.chain, sig, slot));
  }

  lemma AbsentInStable(w: World, w': World, sig: Signature, slots: set<nat>)
    requires Grows(w, w') && AbsentIn(w.chain, sig, slots)
    ensures AbsentIn(w'.chain, sig, slots)
  {
    assert forall slot: nat :: slot < |w.chain| ==> (In(w'.chain, sig, slot) <==> In(w.chain, sig, slot));
  }

  lemma MissedStable(w: World, w': World, sig: Signature, seen: Head, span: Span)
    requires Grows(w, w') && MissedLocally(w, sig, seen, span)
    ensures MissedLocally(w', sig, seen, span)
  {
    AbsentInStable(w, w', sig, seen.held);
    AbsentStable(w, w', sig, span.floor, span.tip + 1);
  }

  lemma AnsweredStable(w: World, w': World, sig: Signature, at: nat)
    requires Grows(w, w') && Answered(w, sig, at)
    ensures Answered(w', sig, at)
  {
    var held :| Answer(sig, at, held) in w.answers;
    assert Answer(sig, at, held) in w'.answers;
  }

  lemma YoungStable(ttl: nat, w: World, w': World, q: Request)
    requires Grows(w, w') && Young(ttl, w, q)
    ensures Young(ttl, w', q)
  {
    if q.Skipped? {
      var a :| a in w.answers && a.sig == q.sig && q.at < a.at + ttl;
      assert a in w'.answers;
    }
  }

  lemma AnswersStable(w: World, w': World)
    requires Grows(w, w') && AnswersHold(w)
    ensures forall a :: a in w.answers ==> a.at <= w'.now && AbsentIn(w'.chain, a.sig, a.held)
  {
    forall a | a in w.answers ensures AbsentIn(w'.chain, a.sig, a.held) {
      AbsentInStable(w, w', a.sig, a.held);
    }
  }

  lemma RequestStable(w: World, w': World, q: Request)
    requires Grows(w, w') && RequestOk(w, q)
    ensures RequestOk(w', q)
  {
    match q
    case NotInHead(sig, _, seen) => AbsentInStable(w, w', sig, seen.held);
    case NotOnDisk(sig, _, seen, span) => MissedStable(w, w', sig, seen, span);
    case Extended(sig, _, seen, span, _) => MissedStable(w, w', sig, seen, span);
    case NoRow(sig, tip, at) =>
      AbsentStable(w, w', sig, 0, tip + 1);
      AnsweredStable(w, w', sig, at);
    case Skipped(sig, _, seen, span, _) =>
      AbsentStable(w, w', sig, 0, span.tip + 1);
      AbsentInStable(w, w', sig, seen.held);
    case _ =>
  }

  /** A request's next step, except that the answer to `Ask` is recorded with it. */
  lemma NextOk(ttl: nat, w: World, q: Request)
    requires Inv(ttl, w) && RequestOk(w, q) && !q.Asking?
    ensures RequestOk(w, Next(ttl, w, q)) && Young(ttl, w, Next(ttl, w, q))
  {
    match q
    case Extended(sig, _, seen, span, at) =>
      if sig in w.cache && Stands(w.cache[sig], span.floor, at, ttl) {
        assert AbsentFrom(w.chain, sig, 0, w.cache[sig].diskTip + 1);
        var held :| Answer(sig, w.cache[sig].at, held) in w.answers;
        assert at < Answer(sig, w.cache[sig].at, held).at + ttl;
      }
    case _ =>
  }

  lemma EntriesStable(w: World, w': World)
    requires Grows(w, w') && EntriesHold(w) && w'.cache.Keys <= w.cache.Keys
    requires forall sig :: sig in w'.cache ==> w'.cache[sig] == w.cache[sig]
    ensures EntriesHold(w')
  {
    forall sig | sig in w'.cache
      ensures AbsentFrom(w'.chain, sig, 0, w'.cache[sig].diskTip + 1) && Answered(w', sig, w'.cache[sig].at)
    {
      AbsentStable(w, w', sig, 0, w.cache[sig].diskTip + 1);
      AnsweredStable(w, w', sig, w.cache[sig].at);
    }
  }

  predicate OfRequest(e: Event) {
    e.Begin? || e.LookHead? || e.ReadDisk? || e.CheckHead? || e.Consult? || e.Ask? || e.Insert? || e.Drop?
  }

  /** Requests that an event does not touch. */
  lemma OthersStable(ttl: nat, w: World, w': World, r: RequestId)
    requires Inv(ttl, w) && Grows(w, w') && r in w.requests
    ensures RequestOk(w', w.requests[r]) && Young(ttl, w', w.requests[r])
  {
    RequestStable(w, w', w.requests[r]);
    YoungStable(ttl, w, w', w.requests[r]);
  }

  lemma WorldStepKeepsInv(ttl: nat, w: World, e: Event)
    requires Inv(ttl, w) && Allowed(w, e) && !OfRequest(e)
    ensures Inv(ttl, Apply(ttl, w, e))
  {
    var w' := Apply(ttl, w, e);
    EntriesStable(w, w');
    AnswersStable(w, w');
    forall r | r in w'.requests ensures RequestOk(w', w'.requests[r]) && Young(ttl, w', w'.requests[r]) {
      OthersStable(ttl, w, w', r);
    }
  }

  lemma AskKeepsInv(ttl: nat, w: World, r: RequestId)
    requires Inv(ttl, w) && Allowed(w, Ask(r))
    ensures Inv(ttl, Apply(ttl, w, Ask(r)))
  {
    var w' := Apply(ttl, w, Ask(r));
    var Asking(sig, tip) := w.requests[r];
    EntriesStable(w, w');
    AnswersStable(w, w');
    assert RequestOk(w, w.requests[r]);
    if !InPrimary(w, sig) {
      var a := Answer(sig, w.now, w.primary);
      assert a in w'.answers && AbsentIn(w'.chain, sig, w.primary);
      assert AbsentFrom(w'.chain, sig, 0, tip + 1);
    }
    forall u | u in w'.requests ensures RequestOk(w', w'.requests[u]) && Young(ttl, w', w'.requests[u]) {
      if u != r {
        OthersStable(ttl, w, w', u);
      }
    }
  }

  lemma InsertKeepsInv(ttl: nat, w: World, r: RequestId)
    requires Inv(ttl, w) && Allowed(w, Insert(r))
    ensures Inv(ttl, Apply(ttl, w, Insert(r)))
  {
    var w' := Apply(ttl, w, Insert(r));
    var q := w.requests[r];
    assert RequestOk(w, q);
    AnswersStable(w, w');
    forall sig | sig in w'.cache
      ensures AbsentFrom(w'.chain, sig, 0, w'.cache[sig].diskTip + 1) && Answered(w', sig, w'.cache[sig].at)
    {
      if sig == q.sig {
        AbsentStable(w, w', sig, 0, q.tip + 1);
        AnsweredStable(w, w', sig, q.at);
      } else {
        AbsentStable(w, w', sig, 0, w.cache[sig].diskTip + 1);
        AnsweredStable(w, w', sig, w.cache[sig].at);
      }
    }
    forall u | u in w'.requests ensures RequestOk(w', w'.requests[u]) && Young(ttl, w', w'.requests[u]) {
      if u != r {
        OthersStable(ttl, w, w', u);
      }
    }
  }

  lemma RequestStepKeepsInv(ttl: nat, w: World, e: Event)
    requires Inv(ttl, w) && Allowed(w, e) && OfRequest(e) && !e.Ask? && !e.Insert?
    ensures Inv(ttl, Apply(ttl, w, e))
  {
    var w' := Apply(ttl, w, e);
    EntriesStable(w, w');
    AnswersStable(w, w');
    forall r | r in w'.requests ensures RequestOk(w', w'.requests[r]) && Young(ttl, w', w'.requests[r]) {
      if r == e.r {
        if !e.Begin? && !e.Drop? { NextOk(ttl, w, w.requests[r]); }
        RequestStable(w, w', w'.requests[r]);
        YoungStable(ttl, w, w', w'.requests[r]);
      } else {
        OthersStable(ttl, w, w', r);
      }
    }
  }

  /** Every event keeps every recorded absence, and everything a request has learned, true. */
  lemma StepKeepsInv(ttl: nat, w: World, e: Event)
    requires Inv(ttl, w) && Allowed(w, e)
    ensures Inv(ttl, Apply(ttl, w, e))
  {
    if e.Ask? {
      AskKeepsInv(ttl, w, e.r);
    } else if e.Insert? {
      InsertKeepsInv(ttl, w, e.r);
    } else if OfRequest(e) {
      RequestStepKeepsInv(ttl, w, e);
    } else {
      WorldStepKeepsInv(ttl, w, e);
    }
  }

  lemma {:induction false} RunKeepsInv(ttl: nat, w: World, es: seq<Event>, w': World)
    requires Inv(ttl, w) && Run(ttl, w, es, w')
    ensures Inv(ttl, w')
    decreases |es|
  {
    if es != [] {
      StepKeepsInv(ttl, w, es[0]);
      RunKeepsInv(ttl, Apply(ttl, w, es[0]), es[1..], w');
    }
  }

  lemma ReachableInv(ttl: nat, w: World)
    requires Reachable(ttl, w)
    ensures Inv(ttl, w)
  {
    var es :| Run(ttl, Genesis(), es, w);
    RunKeepsInv(ttl, Genesis(), es, w);
  }

  // ---- What a skip means --------------------------------------------------------------

  /** Whatever the cache, the tiers and other requests did in between: the signature of a request
      that skipped the primary is in no slot up to its disk tip, and in none that its head lookup
      saw. */
  lemma AbsenceIsSound(ttl: nat, w: World, r: RequestId, slot: nat)
    requires Reachable(ttl, w) && r in w.requests && w.requests[r].Skipped?
    requires slot <= w.requests[r].span.tip || slot in w.requests[r].seen.held
    ensures slot < |w.chain| && w.requests[r].sig !in w.chain[slot]
  {
    ReachableInv(ttl, w);
    assert RequestOk(w, w.requests[r]);
    assert !In(w.chain, w.requests[r].sig, slot);
  }

  /** A skip relies on the primary's own word: some time less than the time to live before the
      request's check, or after it, the primary had no row for the signature in any slot it held. */
  lemma SkipTracesToAnswer(ttl: nat, w: World, r: RequestId)
    requires Reachable(ttl, w) && r in w.requests && w.requests[r].Skipped?
    ensures exists a :: a in w.answers && a.sig == w.requests[r].sig && w.requests[r].at < a.at + ttl
              && a.at <= w.now && AbsentIn(w.chain, a.sig, a.held)
  {
    ReachableInv(ttl, w);
    assert Young(ttl, w, w.requests[r]);
    var a :| a in w.answers && a.sig == w.requests[r].sig && w.requests[r].at < a.at + ttl;
    assert AbsentIn(w.chain, a.sig, a.held);
  }

  /** The head check, in plain terms: the request passes it exactly when it had a trusted tip; the
      head is trusted now; nothing between the disk tip and the head's end is missing, and the
      head's floor is not above it; the head's end is not behind that tip; and the latest slot read
      from the primary is not past it. Otherwise it asks the primary. */
  lemma CheckIsExact(ttl: nat, w: World, r: RequestId, w': World)
    requires r in w.requests && w.requests[r].NotOnDisk? && Run(ttl, w, [CheckHead(r)], w')
    ensures var NotOnDisk(sig, end, seen, span) := w.requests[r];
            var start := if span.tip == U64_MAX then span.tip else span.tip + 1;
            && r in w'.requests
            && (w'.requests[r].Extended? <==>
                  && end.Some? && w.reported < end.value <= w.head.end && w.head.floor <= start
                  && w.head.end > 0 && w.head.end - 1 in w.head.held
                  && (w.head.end > 1 ==> w.head.end - 2 in w.head.held)
                  && forall slot :: start <= slot < w.head.end ==> slot in w.head.held)
            && (w'.requests[r].Extended? ==> w'.requests[r] == Extended(sig, end.value, seen, span, w.now))
            && (!w'.requests[r].Extended? ==> w'.requests[r] == Asking(sig, span.tip))
  {
    assert [CheckHead(r)][1..] == [];
  }

  /** The steps before it: the head lookup misses exactly when no slot the head holds has the
      signature, and the disk read exactly when there is a span and no slot of it has. A request that
      does not miss is done. */
  lemma LookupsAreExact(ttl: nat, w: World, e: Event, w': World)
    requires (e.LookHead? || e.ReadDisk?) && Run(ttl, w, [e], w')
    ensures e.r in w.requests && e.r in w'.requests
    ensures e.LookHead? ==>
              var Began(sig, end) := w.requests[e.r];
              w'.requests[e.r] ==
                if forall slot: nat :: slot in w.head.held ==> !In(w.chain, sig, slot)
                then NotInHead(sig, end, w.head) else Done
    ensures e.ReadDisk? ==>
              var NotInHead(sig, end, seen) := w.requests[e.r];
              w'.requests[e.r] ==
                if w.disk.Some? && forall slot: nat ::
                     w.disk.value.floor <= slot <= w.disk.value.tip ==> !In(w.chain, sig, slot)
                then NotOnDisk(sig, end, seen, w.disk.value) else Done
  {
    assert [e][1..] == [];
  }

  /** The steps after it: the cache answers exactly when it has an entry that was younger than the
      time to live at the check and whose tip reaches the disk span; otherwise the primary is asked.
      A request without a row records that, as of its answer and with its disk tip. */
  lemma AnswersAreExact(ttl: nat, w: World, e: Event, w': World)
    requires (e.Consult? || e.Ask? || e.Insert?) && Run(ttl, w, [e], w')
    ensures e.r in w.requests && e.r in w'.requests
    ensures e.Consult? ==>
              var Extended(sig, lookupEnd, seen, span, at) := w.requests[e.r];
              w'.requests[e.r] ==
                if sig in w.cache && 0 < ttl && at < w.cache[sig].at + ttl && span.floor <= w.cache[sig].diskTip + 1
                then Skipped(sig, lookupEnd, seen, span, at) else Asking(sig, span.tip)
    ensures e.Ask? ==>
              var Asking(sig, tip) := w.requests[e.r];
              w'.requests[e.r] ==
                if forall slot: nat :: slot in w.primary ==> !In(w.chain, sig, slot)
                then NoRow(sig, tip, w.now) else Done
    ensures e.Insert? ==>
              var NoRow(sig, tip, at) := w.requests[e.r];
              w'.requests[e.r] == Done && w'.cache == w.cache[sig := Absent(at, tip)]
  {
    assert [e][1..] == [];
  }

  /** A request that is done, or was dropped, stays so. */
  lemma {:induction false} DoneIsForever(ttl: nat, w: World, es: seq<Event>, w': World, r: RequestId)
    requires Run(ttl, w, es, w') && r in w.requests
    requires w.requests[r].Done? || (es != [] && es[0] == Drop(r))
    ensures r in w'.requests && w'.requests[r].Done?
    decreases |es|
  {
    if es != [] {
      DoneIsForever(ttl, Apply(ttl, w, es[0]), es[1..], w', r);
    }
  }

  /** The lookup saw every slot after the disk tip up to the trusted tip. */
  ghost predicate SawAll(seen: Head, tip: nat, lookupEnd: nat) {
    forall slot: nat :: tip < slot < lookupEnd ==> slot in seen.held
  }

  /** Below the trusted tip, the head holds nothing that the lookup did not see. */
  ghost predicate NothingLate(h: Head, seen: Head, lookupEnd: nat) {
    forall slot: nat :: slot < lookupEnd && slot in h.held ==> slot in seen.held
  }

  ghost predicate InOrder(e: Event, lookupEnd: nat) {
    e.Publish? ==> forall slot :: slot in e.slots ==> lookupEnd <= slot
  }

  /** What the request knows of the head as long as it gains no slot below the trusted tip. */
  ghost predicate Follows(w: World, r: RequestId, lookupEnd: nat, seen: Head) {
    r in w.requests && match w.requests[r]
    case Began(_, _) => false
    case NotInHead(_, end, s) => end == Some(lookupEnd) && s == seen && NothingLate(w.head, seen, lookupEnd)
    case NotOnDisk(_, end, s, _) => end == Some(lookupEnd) && s == seen && NothingLate(w.head, seen, lookupEnd)
    case Extended(_, end, s, span, _) => end == lookupEnd && s == seen && SawAll(seen, span.tip, lookupEnd)
    case _ => true
  }

  lemma StepFollows(ttl: nat, w: World, e: Event, r: RequestId, lookupEnd: nat, seen: Head)
    requires Allowed(w, e) && InOrder(e, lookupEnd) && Follows(w, r, lookupEnd, seen)
    ensures Follows(Apply(ttl, w, e), r, lookupEnd, seen)
  {
    if e == CheckHead(r) {
      var q := w.requests[r];
      if Next(ttl, w, q).Extended? {
        assert SawAll(seen, q.span.tip, lookupEnd);
      }
    }
  }

  lemma {:induction false} RunFollows(ttl: nat, w: World, es: seq<Event>, w': World, r: RequestId,
                                      lookupEnd: nat, seen: Head)
    requires Run(ttl, w, es, w') && (forall e :: e in es ==> InOrder(e, lookupEnd)) && Follows(w, r, lookupEnd, seen)
    ensures Follows(w', r, lookupEnd, seen)
    decreases |es|
  {
    if es != [] {
      assert es[0] in es;
      StepFollows(ttl, w, es[0], r, lookupEnd, seen);
      RunFollows(ttl, Apply(ttl, w, es[0]), es[1..], w', r, lookupEnd, seen);
    }
  }

  /** What the head check after the lookup is for. If the head gains no slot below the trusted tip
      in between, passing it means that the lookup saw every slot after the disk tip; and if the
      cache then answers "absent", the signature is in no slot up to the trusted tip. */
  lemma CheckVouchesForLookup(ttl: nat, w: World, r: RequestId, sig: Signature, lookupEnd: nat,
                              es: seq<Event>, w': World)
    requires Reachable(ttl, w) && r in w.requests && w.requests[r] == Began(sig, Some(lookupEnd)) && !InHead(w, sig)
    requires Run(ttl, Apply(ttl, w, LookHead(r)), es, w') && forall e :: e in es ==> InOrder(e, lookupEnd)
    requires r in w'.requests && w'.requests[r].Extended?
    ensures SawAll(w.head, w'.requests[r].span.tip, lookupEnd)
    ensures Next(ttl, w', w'.requests[r]).Skipped? ==> AbsentFrom(w'.chain, w'.requests[r].sig, 0, lookupEnd)
  {
    var w1 := Apply(ttl, w, LookHead(r));
    assert Follows(w1, r, lookupEnd, w.head);
    RunFollows(ttl, w1, es, w', r, lookupEnd, w.head);
    ReachableInv(ttl, w);
    StepKeepsInv(ttl, w, LookHead(r));
    RunKeepsInv(ttl, w1, es, w');
    NextOk(ttl, w', w'.requests[r]);
  }
}
