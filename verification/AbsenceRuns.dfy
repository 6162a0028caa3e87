/** Exactly when skipping the primary hides a landing, with the runs in which it does. */
module AbsenceRuns {
  import opened Basics
  import opened AbsenceProofs
  import opened AbsenceProtocol

  // ---- Reaching a world -----------------------------------------------------------------

  lemma {:induction false} RunSnoc(ttl: nat, w: World, es: seq<Event>, w': World, e: Event)
    requires Run(ttl, w, es, w') && Allowed(w', e)
    ensures Run(ttl, w, es + [e], Apply(ttl, w', e))
    decreases |es|
  {
    if es == [] {
      assert es + [e] == [e] && [e][1..] == [];
    } else {
      RunSnoc(ttl, Apply(ttl, w, es[0]), es[1..], w', e);
      assert (es + [e])[1..] == es[1..] + [e];
    }
  }

  lemma Then(ttl: nat, w: World, e: Event)
    requires Reachable(ttl, w) && Allowed(w, e)
    ensures Reachable(ttl, Apply(ttl, w, e))
  {
    var es :| Run(ttl, Genesis(), es, w);
    RunSnoc(ttl, Genesis(), es, w, e);
  }

  /** The signature lands in `slot` and nowhere else; the primary has the chain up to slot `p`. */
  ghost predicate Laid(w: World, sig: Signature, slot: nat, p: nat) {
    && (forall x: nat :: In(w.chain, sig, x) <==> x == slot && x < |w.chain|)
    && (forall x: nat :: x in w.primary <==> x <= p && x < |w.chain|)
  }

  lemma GrowOnce(ttl: nat, w: World, sig: Signature, slot: nat, p: nat) returns (w': World)
    requires Reachable(ttl, w) && Laid(w, sig, slot, p)
    ensures Reachable(ttl, w') && Laid(w', sig, slot, p) && |w'.chain| == |w.chain| + 1
    ensures w' == w.(chain := w'.chain, primary := w'.primary)
  {
    var n := |w.chain|;
    var block := if n == slot then {sig} else {};
    Then(ttl, w, Extend(block));
    w' := Apply(ttl, w, Extend(block));
    forall x: nat ensures In(w'.chain, sig, x) <==> x == slot && x < |w'.chain| {
      assert x < n ==> (In(w'.chain, sig, x) <==> In(w.chain, sig, x));
    }
    if n <= p {
      Then(ttl, w', Ingest(n));
      w' := Apply(ttl, w', Ingest(n));
    }
  }

  lemma {:induction false} GrowTo(ttl: nat, w: World, n: nat, sig: Signature, slot: nat, p: nat) returns (w': World)
    requires Reachable(ttl, w) && Laid(w, sig, slot, p) && |w.chain| <= n
    ensures Reachable(ttl, w') && Laid(w', sig, slot, p) && |w'.chain| == n
    ensures w' == w.(chain := w'.chain, primary := w'.primary)
    decreases n - |w.chain|
  {
    if |w.chain| == n {
      w' := w;
    } else {
      var next := GrowOnce(ttl, w, sig, slot, p);
      w' := GrowTo(ttl, next, n, sig, slot, p);
    }
  }

  /** Any head can follow any other, by way of a reconnect. */
  lemma Become(ttl: nat, w: World, h: Head)
    requires Reachable(ttl, w) && WellFormed(h) && h.end <= |w.chain|
    ensures Reachable(ttl, w.(head := h))
  {
    Then(ttl, w, Reconnect);
    var w1 := w.(head := EMPTY_HEAD);
    if h.end > 0 {
      Then(ttl, w1, Observe(h.end - 1));
    }
    var w2 := w.(head := Head(0, h.end, {}));
    Then(ttl, w2, Retain(h.floor));
    var w3 := w.(head := Head(h.floor, h.end, {}));
    assert Apply(ttl, w2, Retain(h.floor)) == w3;
    Then(ttl, w3, Publish(h.held));
    assert Apply(ttl, w3, Publish(h.held)) == w.(head := h) by {
      assert {} + h.held == h.held;
    }
  }

  /** The rest of the world is as free: the cache can lose any entries, the process can hear of any
      slot the primary has, the head can stop vouching for any slots, and time passes. */
  lemma AnythingCanHappen(ttl: nat, w: World, sigs: set<Signature>, slot: nat, slots: set<nat>, ms: nat)
    requires Reachable(ttl, w)
    ensures Reachable(ttl, w.(cache := w.cache - sigs))
    ensures slot in w.primary ==> Reachable(ttl, w.(reported := slot))
    ensures Reachable(ttl, w.(head := w.head.(held := w.head.held - slots)))
    ensures Reachable(ttl, w.(now := w.now + ms))
  {
    Then(ttl, w, Lose(sigs));
    if slot in w.primary {
      Then(ttl, w, Report(slot));
    }
    Then(ttl, w, Invalidate(slots));
    Then(ttl, w, Tick(ms));
  }

  /** A request's next step. */
  lemma Follow(ttl: nat, w: World, r: RequestId, q: Request, e: Event)
    requires Reachable(ttl, Goto(w, r, q)) && Allowed(Goto(w, r, q), e)
    requires e in {LookHead(r), ReadDisk(r), CheckHead(r), Consult(r)}
    ensures Reachable(ttl, Goto(w, r, Next(ttl, Goto(w, r, q), q)))
  {
    Then(ttl, Goto(w, r, q), e);
    assert Apply(ttl, Goto(w, r, q), e) == Goto(w, r, Next(ttl, Goto(w, r, q), q));
  }

  // ---- A recorded absence -------------------------------------------------------------------

  /** The world once the primary has answered and the entry is in. */
  function WithEntry(w: World, sig: Signature, tip: u64): World {
    w.(requests := map[0 := Done], cache := w.cache[sig := Absent(w.now, tip)],
       answers := w.answers + {Answer(sig, w.now, w.primary)})
  }

  lemma AskAndInsert(ttl: nat, w: World, sig: Signature, tip: u64)
    requires w.requests == map[] && forall slot: nat :: !In(w.chain, sig, slot)
    requires Reachable(ttl, Goto(w, 0, Asking(sig, tip)))
    ensures Reachable(ttl, WithEntry(w, sig, tip))
  {
    var asking := Goto(w, 0, Asking(sig, tip));
    Then(ttl, asking, Ask(0));
    assert !InPrimary(asking, sig);
    var answered := Goto(w, 0, NoRow(sig, tip, w.now)).(answers := w.answers + {Answer(sig, w.now, w.primary)});
    assert Apply(ttl, asking, Ask(0)) == answered;
    Then(ttl, answered, Insert(0));
    assert Apply(ttl, answered, Insert(0)) == WithEntry(w, sig, tip);
  }

  /** A first request, for a signature that has not landed, leaves an entry behind. */
  lemma RecordAbsence(ttl: nat, w: World, sig: Signature, span: Span)
    requires Reachable(ttl, w) && w.requests == map[] && w.disk == Some(span)
    requires forall slot: nat :: !In(w.chain, sig, slot)
    ensures Reachable(ttl, WithEntry(w, sig, span.tip))
  {
    Then(ttl, w, Begin(0, sig, false));
    Follow(ttl, w, 0, Began(sig, None), LookHead(0));
    Follow(ttl, w, 0, NotInHead(sig, None, w.head), ReadDisk(0));
    Follow(ttl, w, 0, NotOnDisk(sig, None, w.head, span), CheckHead(0));
    AskAndInsert(ttl, w, sig, span.tip);
  }

  /** An entry recorded at `tip`; then the signature lands in a later slot, and the chain grows to
      `n` slots. */
  lemma LandAfterEntry(ttl: nat, sig: Signature, tip: u64, slot: nat, p: nat, n: nat) returns (w: World)
    requires tip < slot <= p < n
    ensures Reachable(ttl, w) && Laid(w, sig, slot, p) && |w.chain| == n && w.reported == 0
    ensures w.requests == map[0 := Done] && w.cache == map[sig := Absent(w.now, tip)]
  {
    assert Run(ttl, Genesis(), [], Genesis());
    var w1 := GrowTo(ttl, Genesis(), tip + 1, sig, slot, p);
    Then(ttl, w1, Fill(Span(0, tip)));
    var w2 := w1.(disk := Some(Span(0, tip)));
    RecordAbsence(ttl, w2, sig, Span(0, tip));
    w := GrowTo(ttl, WithEntry(w2, sig, tip), n, sig, slot, p);
  }

  // ---- A second request past every check ------------------------------------------------------

  /** A world with this head and this second request. */
  function Second(w: World, h: Head, q: Request): World {
    Goto(w.(head := h), 1, q)
  }

  lemma BecomeSecond(ttl: nat, w: World, h: Head, h': Head, q: Request)
    requires Reachable(ttl, Second(w, h, q)) && WellFormed(h') && h'.end <= |w.chain|
    ensures Reachable(ttl, Second(w, h', q))
  {
    Become(ttl, Second(w, h, q), h');
    assert Second(w, h, q).(head := h') == Second(w, h', q);
  }

  /** The least a trusted head needs to have. */
  function TipOnly(end: nat): (h: Head)
    requires end > 0
    ensures WellFormed(h) && Trusted(h) && h.end == end
  {
    Head(0, end, if end == 1 then {0} else {end - 1, end - 2})
  }

  function Below(n: nat): (r: set<nat>)
    ensures forall slot: nat :: slot in r <==> slot < n
  {
    if n == 0 then {} else Below(n - 1) + {n - 1}
  }

  function Full(n: nat): (h: Head)
    ensures WellFormed(h) && h.end == n && (n > 0 ==> Trusted(h))
  {
    Head(0, n, Below(n))
  }

  /** The request takes the trusted tip; its lookup sees the head `seen`. */
  lemma LookAt(ttl: nat, w: World, sig: Signature, lookupEnd: nat, seen: Head)
    requires Reachable(ttl, w) && 1 !in w.requests && 0 < lookupEnd <= |w.chain|
    requires WellFormed(seen) && seen.end <= |w.chain| && AbsentIn(w.chain, sig, seen.held)
    ensures Reachable(ttl, Second(w, seen, NotInHead(sig, Some(lookupEnd), seen)))
  {
    Become(ttl, w, TipOnly(lookupEnd));
    Then(ttl, w.(head := TipOnly(lookupEnd)), Begin(1, sig, true));
    assert Apply(ttl, w.(head := TipOnly(lookupEnd)), Begin(1, sig, true))
        == Second(w, TipOnly(lookupEnd), Began(sig, Some(lookupEnd)));
    BecomeSecond(ttl, w, TipOnly(lookupEnd), seen, Began(sig, Some(lookupEnd)));
    Follow(ttl, w.(head := seen), 1, Began(sig, Some(lookupEnd)), LookHead(1));
    assert !InHead(Second(w, seen, Began(sig, Some(lookupEnd))), sig);
  }

  /** Then the disk read misses, and a head that by now has everything passes the check. */
  lemma PassCheck(ttl: nat, w: World, h: Head, sig: Signature, lookupEnd: nat, seen: Head, span: Span)
    requires Reachable(ttl, Second(w, h, NotInHead(sig, Some(lookupEnd), seen)))
    requires w.disk == Some(span) && AbsentFrom(w.chain, sig, span.floor, span.tip + 1)
    requires 0 < lookupEnd <= |w.chain| && w.reported == 0
    ensures Reachable(ttl, Second(w, Full(|w.chain|), Extended(sig, lookupEnd, seen, span, w.now)))
  {
    Follow(ttl, w.(head := h), 1, NotInHead(sig, Some(lookupEnd), seen), ReadDisk(1));
    assert !OnDisk(Second(w, h, NotInHead(sig, Some(lookupEnd), seen)), sig, span);
    var q := NotOnDisk(sig, Some(lookupEnd), seen, span);
    BecomeSecond(ttl, w, h, Full(|w.chain|), q);
    Follow(ttl, w.(head := Full(|w.chain|)), 1, q, CheckHead(1));
    assert ExtendsDisk(Second(w, Full(|w.chain|), q), lookupEnd, span.tip);
  }

  function Max(a: nat, b: nat): nat {
    if a < b then b else a
  }

  /** For any landing outside the disk span that the lookup did not see, and any primary that has
      it: a request with a fresh entry gets past the head check. */
  lemma ReachConsult(ttl: nat, sig: Signature, tip: u64, slot: nat, p: nat, lookupEnd: nat, seen: Head, span: Span)
    returns (w: World)
    requires tip < slot <= p && 0 < lookupEnd && WellFormed(seen) && slot !in seen.held
    requires span.floor <= span.tip <= p && !(span.floor <= slot <= span.tip)
    ensures Reachable(ttl, w) && Laid(w, sig, slot, p) && p < |w.chain| && w.disk == Some(span) && w.reported == 0
    ensures 1 in w.requests && w.requests[1] == Extended(sig, lookupEnd, seen, span, w.now)
    ensures w.cache == map[sig := Absent(w.now, tip)]
  {
    var n := Max(p + 1, Max(lookupEnd, seen.end));
    var w0 := LandAfterEntry(ttl, sig, tip, slot, p, n);
    Then(ttl, w0, Fill(span));
    var w1 := w0.(disk := Some(span));
    LookAt(ttl, w1, sig, lookupEnd, seen);
    PassCheck(ttl, w1, seen, sig, lookupEnd, seen, span);
    w := Second(w1, Full(n), Extended(sig, lookupEnd, seen, span, w1.now));
  }

  // ---- Exactly when a skip hides nothing -----------------------------------------------------

  ghost predicate Newest(primary: set<nat>, p: nat) {
    p in primary && forall slot :: slot in primary ==> slot <= p
  }

  /** The cache is about to keep the request from asking a primary whose newest slot is `p`, and
      which knows the signature. */
  ghost predicate Hides(ttl: nat, w: World, r: RequestId, sig: Signature, at: nat,
                        lookupEnd: nat, seen: Head, span: Span, p: nat) {
    && Reachable(ttl, w) && r in w.requests && w.requests[r] == Extended(sig, lookupEnd, seen, span, at)
    && Next(ttl, w, w.requests[r]).Skipped?
    && Newest(w.primary, p) && InPrimary(w, sig)
  }

  ghost predicate CanHide(ttl: nat, lookupEnd: nat, seen: Head, span: Span, p: nat) {
    exists w, r, sig, at :: Hides(ttl, w, r, sig, at, lookupEnd, seen, span, p)
  }

  lemma SeenSlotsAreNotHidden(ttl: nat, w: World, r: RequestId, sig: Signature, at: nat,
                              lookupEnd: nat, seen: Head, span: Span, p: nat)
    requires forall slot: nat :: span.tip < slot <= p ==> slot in seen.held
    ensures !Hides(ttl, w, r, sig, at, lookupEnd, seen, span, p)
  {
    if Reachable(ttl, w) && r in w.requests && w.requests[r] == Extended(sig, lookupEnd, seen, span, at)
       && Next(ttl, w, w.requests[r]).Skipped? && Newest(w.primary, p)
    {
      ReachableInv(ttl, w);
      NextOk(ttl, w, w.requests[r]);
      forall slot: nat | slot in w.primary ensures !In(w.chain, sig, slot) {
        assert slot <= span.tip || slot in seen.held;
      }
    }
  }

  lemma UnseenSlotCanBeHidden(ttl: nat, sig: Signature, lookupEnd: nat, seen: Head, span: Span, p: nat, slot: nat)
    returns (w: World)
    requires ttl > 0 && lookupEnd > 0 && WellFormed(seen) && span.floor <= span.tip < slot <= p && slot !in seen.held
    ensures Hides(ttl, w, 1, sig, w.now, lookupEnd, seen, span, p) && w.reported == 0 && In(w.chain, sig, slot)
  {
    w := ReachConsult(ttl, sig, span.tip, slot, p, lookupEnd, seen, span);
    assert slot in w.primary && In(w.chain, sig, slot);
  }

  /** A skip can hide a landing from the client if and only if the primary has a slot past the disk
      tip that the head lookup did not see. */
  lemma SkipHidesNothingIff(ttl: nat, lookupEnd: nat, seen: Head, span: Span, p: nat)
    requires ttl > 0 && lookupEnd > 0 && WellFormed(seen) && span.floor <= span.tip
    ensures !CanHide(ttl, lookupEnd, seen, span, p) <==> forall slot: nat :: span.tip < slot <= p ==> slot in seen.held
  {
    if slot: nat :| span.tip < slot <= p && slot !in seen.held {
      var w := UnseenSlotCanBeHidden(ttl, 0, lookupEnd, seen, span, p, slot);
    } else {
      forall w, r, sig, at ensures !Hides(ttl, w, r, sig, at, lookupEnd, seen, span, p) {
        SeenSlotsAreNotHidden(ttl, w, r, sig, at, lookupEnd, seen, span, p);
      }
    }
  }

  /** With a lookup that saw everything up to the trusted tip, that is: if and only if the primary
      has not run past the trusted tip. */
  lemma CompleteLookupHidesNothingIff(ttl: nat, lookupEnd: nat, seen: Head, span: Span, p: nat)
    requires ttl > 0 && WellFormed(seen) && span.floor <= span.tip < lookupEnd == seen.end
    requires SawAll(seen, span.tip, lookupEnd)
    ensures !CanHide(ttl, lookupEnd, seen, span, p) <==> p < lookupEnd
  {
    SkipHidesNothingIff(ttl, lookupEnd, seen, span, p);
    assert lookupEnd !in seen.held;
  }

  // ---- What the two head checks do not catch ----------------------------------------------------

  /** The slot this process last read from the primary does not tell whether it has run ahead: the
      check against it passes, and a complete lookup's skip hides what the primary has. */
  lemma StalePrimaryTipCanHideLanding(ttl: nat, sig: Signature, tip: u64, lookupEnd: nat, p: nat)
    requires ttl > 0 && tip < lookupEnd <= p
    ensures exists w, r, at, seen, span :: Hides(ttl, w, r, sig, at, lookupEnd, seen, span, p)
              && span.tip == tip && SawAll(seen, tip, lookupEnd) && w.reported < lookupEnd
  {
    var w := UnseenSlotCanBeHidden(ttl, sig, lookupEnd, Full(lookupEnd), Span(0, tip), p, p);
  }

  lemma RunCons(ttl: nat, w: World, e: Event, rest: seq<Event>, w': World)
    requires Allowed(w, e) && Run(ttl, Apply(ttl, w, e), rest, w')
    ensures Run(ttl, w, [e] + rest, w')
  {
    assert ([e] + rest)[1..] == rest;
  }

  /** A head that is trusted in spite of a hole below its tip. */
  function Holed(tip: nat, end: nat, hole: nat): (h: Head)
    requires tip < hole && hole + 2 < end
    ensures WellFormed(h) && Trusted(h) && h.end == end && hole !in h.held
    ensures forall slot: nat :: slot < end && slot != hole ==> slot in h.held
  {
    Head(0, end, Below(end) - {hole})
  }

  /** A lookup in a trusted head misses a signature whose slot the head does not have as finalized
      yet. Then the head gets that one slot, in the same session, the check passes, and the skip
      hides a landing below the trusted tip. */
  lemma LateSlotCanHideLanding(ttl: nat, sig: Signature, tip: u64, slot: nat, lookupEnd: nat)
    requires ttl > 0 && tip < slot && slot + 2 < lookupEnd
    ensures exists w, w', seen, span :: Reachable(ttl, w) && 1 in w.requests
              && w.requests[1] == NotInHead(sig, Some(lookupEnd), seen) && w.head == seen && Trusted(seen)
              && Run(ttl, w, [Publish({slot}), ReadDisk(1), CheckHead(1), Consult(1)], w')
              && 1 in w'.requests && w'.requests[1] == Skipped(sig, lookupEnd, seen, span, w.now)
              && In(w.chain, sig, slot) && slot in w.primary
  {
    var seen, span := Holed(tip, lookupEnd, slot), Span(0, tip);
    var w0 := LandAfterEntry(ttl, sig, tip, slot, lookupEnd - 1, lookupEnd);
    Then(ttl, w0, Fill(span));
    var w1 := w0.(disk := Some(span));
    LookAt(ttl, w1, sig, lookupEnd, seen);
    var w := Second(w1, seen, NotInHead(sig, Some(lookupEnd), seen));
    LateSteps(ttl, w1, sig, slot, lookupEnd, seen, span);
    var w' := Second(w1, seen.(held := seen.held + {slot}), Skipped(sig, lookupEnd, seen, span, w.now));
    assert w'.requests[1] == Skipped(sig, lookupEnd, seen, span, w.now);
  }

  lemma LateSteps(ttl: nat, w: World, sig: Signature, slot: nat, lookupEnd: nat, seen: Head, span: Span)
    requires ttl > 0 && w.disk == Some(span) && span.floor == 0 && w.reported == 0 < lookupEnd == seen.end
    requires span.tip < slot < lookupEnd && WellFormed(seen) && Trusted(seen) && seen.floor == 0
    requires forall x: nat :: span.tip <= x < lookupEnd && x != slot ==> x in seen.held
    requires forall x: nat :: In(w.chain, sig, x) ==> x == slot
    requires w.cache == map[sig := Absent(w.now, span.tip)]
    ensures Run(ttl, Second(w, seen, NotInHead(sig, Some(lookupEnd), seen)),
                [Publish({slot}), ReadDisk(1), CheckHead(1), Consult(1)],
                Second(w, seen.(held := seen.held + {slot}), Skipped(sig, lookupEnd, seen, span, w.now)))
  {
    var late := seen.(held := seen.held + {slot});
    var found := Skipped(sig, lookupEnd, seen, span, w.now);
    ConsultsAfterRead(ttl, w, late, sig, lookupEnd, seen, span);
    var q := NotInHead(sig, Some(lookupEnd), seen);
    var w0 := Second(w, seen, q);
    assert Apply(ttl, w0, Publish({slot})) == Second(w, late, q);
    RunCons(ttl, w0, Publish({slot}), [ReadDisk(1), CheckHead(1), Consult(1)], Second(w, late, found));
    assert [Publish({slot})] + [ReadDisk(1), CheckHead(1), Consult(1)]
        == [Publish({slot}), ReadDisk(1), CheckHead(1), Consult(1)];
  }

  lemma ConsultsAfterRead(ttl: nat, w: World, h: Head, sig: Signature, lookupEnd: nat, seen: Head, span: Span)
    requires ttl > 0 && w.disk == Some(span) && span.floor == 0 && w.reported == 0 < lookupEnd == h.end
    requires Trusted(h) && h.floor == 0 && forall x: nat :: span.tip <= x < lookupEnd ==> x in h.held
    requires AbsentFrom(w.chain, sig, 0, span.tip + 1) && w.cache == map[sig := Absent(w.now, span.tip)]
    ensures Run(ttl, Second(w, h, NotInHead(sig, Some(lookupEnd), seen)), [ReadDisk(1), CheckHead(1), Consult(1)],
                Second(w, h, Skipped(sig, lookupEnd, seen, span, w.now)))
  {
    var found := Second(w, h, Skipped(sig, lookupEnd, seen, span, w.now));
    assert Run(ttl, found, [], found);
    FollowRun(ttl, w, h, Extended(sig, lookupEnd, seen, span, w.now), Consult(1), [], found);
    var q := NotOnDisk(sig, Some(lookupEnd), seen, span);
    assert ExtendsDisk(Second(w, h, q), lookupEnd, span.tip);
    FollowRun(ttl, w, h, q, CheckHead(1), [Consult(1)], found);
    assert !OnDisk(Second(w, h, NotInHead(sig, Some(lookupEnd), seen)), sig, span);
    FollowRun(ttl, w, h, NotInHead(sig, Some(lookupEnd), seen), ReadDisk(1), [CheckHead(1), Consult(1)], found);
    assert [Consult(1)] + [] == [Consult(1)] && [CheckHead(1)] + [Consult(1)] == [CheckHead(1), Consult(1)];
    assert [ReadDisk(1)] + [CheckHead(1), Consult(1)] == [ReadDisk(1), CheckHead(1), Consult(1)];
  }

  lemma FollowRun(ttl: nat, w: World, h: Head, q: Request, e: Event, rest: seq<Event>, w': World)
    requires Allowed(Second(w, h, q), e) && e in {LookHead(1), ReadDisk(1), CheckHead(1), Consult(1)}
    requires Run(ttl, Second(w, h, Next(ttl, Second(w, h, q), q)), rest, w')
    ensures Run(ttl, Second(w, h, q), [e] + rest, w')
  {
    assert Apply(ttl, Second(w, h, q), e) == Second(w, h, Next(ttl, Second(w, h, q), q));
    RunCons(ttl, Second(w, h, q), e, rest, w');
  }

  // ---- The floor check is exact -------------------------------------------------------------------

  /** The floor check cannot be relaxed by even one slot. If the local coverage starts later than
      the slot after the recorded tip, there is a run that brings a request past every other check,
      with a fresh entry for its signature and a lookup that saw everything past the disk tip that
      the primary has, while the primary holds a landing below the coverage. */
  lemma FloorCheckIsExact(ttl: nat, sig: Signature, tip: u64, floor: u64)
    requires tip + 1 < floor && ttl > 0
    ensures exists w, r, end, seen, span, at, p :: Reachable(ttl, w)
              && r in w.requests && w.requests[r] == Extended(sig, end, seen, span, at)
              && w.disk == Some(span) && span.floor == floor < |w.chain|
              && sig in w.cache && w.cache[sig].diskTip == tip && Age(at, w.cache[sig].at) < ttl
              && Newest(w.primary, p) && (forall slot: nat :: span.tip < slot <= p ==> slot in seen.held)
              && In(w.chain, sig, tip + 1) && InPrimary(w, sig)
  {
    var seen, span := Head(floor, floor + 1, {floor}), Span(floor, floor);
    var w := ReachConsult(ttl, sig, tip, tip + 1, floor, floor + 1, seen, span);
    assert In(w.chain, sig, tip + 1) && tip + 1 in w.primary;
    assert Newest(w.primary, floor);
  }
}
