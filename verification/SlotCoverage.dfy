/** Claims about which slots have a block, valid on certain slot intervals, ends included, and how
    claims are merged (crates/superbank-rpc/src/slot_coverage.rs). */
module SlotCoverages {
  import opened Basics
  import opened Sorting

  datatype Interval = Interval(lo: u64, hi: u64)

  /** The value a `SlotCoverage` object holds. */
  datatype Claim = Claim(slots: seq<u64>, intervals: seq<Interval>)

  // ---- Vocabulary ---------------------------------------------------------------

  predicate In(x: int, iv: Interval) {
    iv.lo <= x <= iv.hi
  }

  predicate Covers(ivs: seq<Interval>, x: int) {
    exists iv :: iv in ivs && In(x, iv)
  }

  predicate SlotLe(a: u64, b: u64) {
    a <= b
  }

  /** Tuples compare lexicographically. */
  predicate IntervalLe(a: Interval, b: Interval) {
    a.lo < b.lo || (a.lo == b.lo && a.hi <= b.hi)
  }

  ghost predicate StrictlySorted(s: seq<int>) {
    forall i, j :: 0 <= i < j < |s| ==> s[i] < s[j]
  }

  ghost predicate WellFormed(ivs: seq<Interval>) {
    forall iv :: iv in ivs ==> iv.lo <= iv.hi
  }

  /** What `gaps` walks over: well-formed intervals in ascending order, possibly overlapping. */
  ghost predicate Ordered(ivs: seq<Interval>) {
    WellFormed(ivs) && SortedBy(IntervalLe, ivs)
  }

  /** Non-empty, ascending, and separated by at least one slot: one list per set of slots. */
  ghost predicate Canonical(ivs: seq<Interval>) {
    && WellFormed(ivs)
    && forall i, j :: 0 <= i < j < |ivs| ==> ivs[i].hi + 1 < ivs[j].lo
  }

  /** The invariant of a coverage that the cache tiers hand around. */
  ghost predicate ValidClaim(c: Claim) {
    && StrictlySorted(c.slots)
    && Ordered(c.intervals)
    && forall x :: x in c.slots ==> Covers(c.intervals, x)
  }

  /** The claim tells the truth about every slot it vouches for. */
  ghost predicate Faithful(c: Claim, truth: iset<int>) {
    forall x :: Covers(c.intervals, x) ==> (x in c.slots <==> x in truth)
  }

  lemma SlotOrderIsTotal()
    ensures TotalOrder(SlotLe) && TotalOrder(IntervalLe)
  {
  }

  lemma HeadIsMember(s: seq<int>)
    ensures |s| > 0 ==> s[0] in s
  {
  }

  lemma {:induction false} StrictlySortedIsUnique(a: seq<int>, b: seq<int>)
    requires StrictlySorted(a) && StrictlySorted(b)
    requires forall x :: x in a <==> x in b
    ensures a == b
  {
    if a == [] {
      HeadIsMember(b);
    } else {
      assert a[0] in a && a[0] in b;
      assert b[0] in b && b[0] in a;
      assert a[0] == b[0];
      forall x ensures x in a[1..] <==> x in b[1..] {
        assert x in a[1..] <==> x in a && x != a[0];
        assert x in b[1..] <==> x in b && x != b[0];
      }
      StrictlySortedIsUnique(a[1..], b[1..]);
    }
  }

  // ---- gaps ---------------------------------------------------------------------

  /** The gap between the cursor and an interval, if there is one. */
  function Before(iv: Interval, cursor: u64): seq<Interval> {
    if iv.lo > cursor then [Interval(cursor, iv.lo - 1)] else []
  }

  lemma GapBefore(iv: Interval, cursor: u64, x: int)
    ensures Covers(Before(iv, cursor), x) <==> cursor <= x < iv.lo
  {
    if cursor <= x < iv.lo {
      assert Before(iv, cursor)[0] in Before(iv, cursor);
    }
  }

  function GapsFrom(ivs: seq<Interval>, cursor: u64, end: u64): seq<Interval>
    requires cursor <= end
  {
    if ivs == [] then [Interval(cursor, end)]
    else if ivs[0].hi < cursor then GapsFrom(ivs[1..], cursor, end)
    else if ivs[0].lo > end then [Interval(cursor, end)]
    else
      Before(ivs[0], cursor)
      + (if ivs[0].hi >= end then [] else GapsFrom(ivs[1..], ivs[0].hi + 1, end))
  }

  function GapsOf(ivs: seq<Interval>, start: u64, end: u64): seq<Interval> {
    if start > end then [] else GapsFrom(ivs, start, end)
  }

  lemma OrderedTail(ivs: seq<Interval>)
    requires Ordered(ivs) && ivs != []
    ensures Ordered(ivs[1..])
    ensures forall iv :: iv in ivs ==> ivs[0].lo <= iv.lo
    ensures forall x :: Covers(ivs, x) <==> In(x, ivs[0]) || Covers(ivs[1..], x)
  {
    forall x ensures Covers(ivs, x) <==> In(x, ivs[0]) || Covers(ivs[1..], x) {
      CoversCons(ivs, x);
    }
  }

  lemma CoversCons(ivs: seq<Interval>, x: int)
    requires ivs != []
    ensures Covers(ivs, x) <==> In(x, ivs[0]) || Covers(ivs[1..], x)
  {
    assert ivs == [ivs[0]] + ivs[1..];
    CoversConcat([ivs[0]], ivs[1..], x);
    assert Covers([ivs[0]], x) <==> In(x, ivs[0]) by {
      assert ivs[0] in [ivs[0]];
    }
  }

  lemma CoversConcat(a: seq<Interval>, b: seq<Interval>, x: int)
    ensures Covers(a + b, x) <==> Covers(a, x) || Covers(b, x)
  {
    if Covers(a, x) {
      var iv :| iv in a && In(x, iv);
      assert iv in a + b;
    }
    if Covers(b, x) {
      var iv :| iv in b && In(x, iv);
      assert iv in a + b;
    }
  }

  ghost predicate FillsExactly(gaps: seq<Interval>, ivs: seq<Interval>, lo: int, end: int) {
    && (forall x :: Covers(gaps, x) <==> lo <= x <= end && !Covers(ivs, x))
    && (forall g :: g in gaps ==> lo <= g.lo && g.hi <= end)
  }

  lemma GapAndRestCanonical(head: seq<Interval>, rest: seq<Interval>, lo: int)
    requires Canonical(rest) && |head| <= 1 && WellFormed(head)
    requires forall g :: g in head ==> g.hi + 1 < lo
    requires forall g :: g in rest ==> lo <= g.lo
    ensures Canonical(head + rest)
  {
    var all := head + rest;
    forall i, j | 0 <= i < j < |all| ensures all[i].hi + 1 < all[j].lo {
      if i < |head| {
        assert all[i] in head && all[j] in rest;
      } else {
        assert all[i] == rest[i - |head|] && all[j] == rest[j - |head|];
      }
    }
  }

  lemma GapAndRestFill(ivs: seq<Interval>, cursor: u64, end: u64, rest: seq<Interval>)
    requires Ordered(ivs) && ivs != [] && ivs[0].hi >= cursor && ivs[0].lo <= end
    requires FillsExactly(rest, ivs[1..], ivs[0].hi + 1, end)
    ensures FillsExactly(Before(ivs[0], cursor) + rest, ivs, cursor, end)
  {
    var head := Before(ivs[0], cursor);
    forall x ensures Covers(head + rest, x) <==> cursor <= x <= end && !Covers(ivs, x) {
      OrderedTail(ivs);
      CoversConcat(head, rest, x);
      GapBefore(ivs[0], cursor, x);
    }
  }

  lemma {:induction false} GapsFromExact(ivs: seq<Interval>, cursor: u64, end: u64)
    requires Ordered(ivs) && cursor <= end
    ensures Canonical(GapsFrom(ivs, cursor, end))
    ensures FillsExactly(GapsFrom(ivs, cursor, end), ivs, cursor, end)
  {
    if ivs == [] || (ivs[0].hi >= cursor && ivs[0].lo > end) {
      NoIntervalAhead(ivs, cursor, end);
    } else {
      OrderedTail(ivs);
      if ivs[0].hi < cursor {
        GapsFromExact(ivs[1..], cursor, end);
      } else if ivs[0].hi >= end {
        GapAndRestFill(ivs, cursor, end, []);
        GapAndRestCanonical(Before(ivs[0], cursor), [], ivs[0].hi + 1);
        assert Before(ivs[0], cursor) + [] == GapsFrom(ivs, cursor, end);
      } else {
        var rest := GapsFrom(ivs[1..], ivs[0].hi + 1, end);
        GapsFromExact(ivs[1..], ivs[0].hi + 1, end);
        GapAndRestFill(ivs, cursor, end, rest);
        GapAndRestCanonical(Before(ivs[0], cursor), rest, ivs[0].hi + 1);
      }
    }
  }

  lemma NoIntervalAhead(ivs: seq<Interval>, cursor: u64, end: u64)
    requires Ordered(ivs) && cursor <= end && (ivs == [] || ivs[0].lo > end)
    ensures Canonical([Interval(cursor, end)])
    ensures FillsExactly([Interval(cursor, end)], ivs, cursor, end)
  {
    var gaps := [Interval(cursor, end)];
    assert gaps[0] in gaps;
    if ivs != [] {
      OrderedTail(ivs);
    }
  }

  /** `gaps` is the canonical complement of the covered slots within the range. */
  lemma GapsExact(ivs: seq<Interval>, start: u64, end: u64)
    requires Ordered(ivs)
    ensures Canonical(GapsOf(ivs, start, end))
    ensures forall x :: Covers(GapsOf(ivs, start, end), x) <==> start <= x <= end && !Covers(ivs, x)
    ensures forall g :: g in GapsOf(ivs, start, end) ==> start <= g.lo && g.hi <= end
  {
    if start <= end {
      GapsFromExact(ivs, start, end);
    }
  }

  lemma {:induction false} CanonicalIsUnique(a: seq<Interval>, b: seq<Interval>)
    requires Canonical(a) && Canonical(b)
    requires forall x :: Covers(a, x) <==> Covers(b, x)
    ensures a == b
  {
    if a == [] {
      if b != [] {
        assert b[0] in b && In(b[0].lo, b[0]);
        assert Covers(b, b[0].lo) && !Covers(a, b[0].lo);
      }
    } else {
      assert a[0] in a && In(a[0].lo, a[0]);
      assert Covers(b, a[0].lo);
      CanonicalFirst(a, b);
      CanonicalFirst(b, a);
      forall x ensures Covers(a[1..], x) <==> Covers(b[1..], x) {
        CoversCons(a, x);
        CoversCons(b, x);
        CanonicalTail(a, x);
        CanonicalTail(b, x);
      }
      CanonicalIsUnique(a[1..], b[1..]);
    }
  }

  lemma CanonicalTail(a: seq<Interval>, x: int)
    requires Canonical(a) && a != []
    ensures Covers(a[1..], x) ==> a[0].hi + 1 < x
    ensures Canonical(a[1..])
  {
    if Covers(a[1..], x) {
      var iv :| iv in a[1..] && In(x, iv);
      var k :| 0 <= k < |a[1..]| && a[1..][k] == iv;
      assert a[k + 1] == iv;
    }
  }

  /** The first interval of a canonical list is fixed by the slots it covers. */
  lemma CanonicalFirst(a: seq<Interval>, b: seq<Interval>)
    requires Canonical(a) && Canonical(b) && a != [] && b != []
    requires forall x :: Covers(a, x) <==> Covers(b, x)
    ensures a[0].lo >= b[0].lo && a[0].hi <= b[0].hi
  {
    assert a[0] in a && In(a[0].lo, a[0]) && In(a[0].hi, a[0]);
    assert Covers(b, a[0].lo);
    CoversCons(b, a[0].lo);
    CanonicalTail(b, a[0].lo);
    assert a[0].lo >= b[0].lo;
    assert b[0] in b && In(b[0].lo, b[0]);
    assert Covers(a, b[0].lo);
    CoversCons(a, b[0].lo);
    CanonicalTail(a, b[0].lo);
    assert a[0].lo == b[0].lo;
    if a[0].hi > b[0].hi {
      var x := b[0].hi + 1;
      assert In(x, a[0]);
      assert Covers(b, x);
      CoversCons(b, x);
      CanonicalTail(b, x);
      assert false;
    }
  }

  /** Coverages of the same slots ask for the same gaps, however their intervals are split or
      overlapped. */
  lemma GapsDependOnCoveredSlots(a: seq<Interval>, b: seq<Interval>, start: u64, end: u64)
    requires Ordered(a) && Ordered(b)
    requires forall x :: start <= x <= end ==> (Covers(a, x) <==> Covers(b, x))
    ensures GapsOf(a, start, end) == GapsOf(b, start, end)
  {
    GapsExact(a, start, end);
    GapsExact(b, start, end);
    CanonicalIsUnique(GapsOf(a, start, end), GapsOf(b, start, end));
  }

  // ---- merge --------------------------------------------------------------------

  /** `Vec::dedup`: drops consecutive repeats. */
  function Dedup(s: seq<u64>): seq<u64> {
    if |s| <= 1 then s
    else if s[0] == s[1] then Dedup(s[1..])
    else [s[0]] + Dedup(s[1..])
  }

  lemma {:induction false} DedupSorted(s: seq<u64>)
    requires SortedBy(SlotLe, s)
    ensures StrictlySorted(Dedup(s))
    ensures forall x :: x in Dedup(s) <==> x in s
    ensures s != [] ==> Dedup(s) != [] && Dedup(s)[0] == s[0]
  {
    if |s| > 1 {
      assert s == [s[0]] + s[1..];
      DedupSorted(s[1..]);
      assert SlotLe(s[0], s[1]);
    }
  }

  function MergeOf(a: Claim, b: Claim): Claim {
    Claim(Dedup(Sort(SlotLe, a.slots + b.slots)), Sort(IntervalLe, a.intervals + b.intervals))
  }

  /** `merge` unions both parts of the claims and restores both orders, whatever order they
      came in. */
  lemma MergeUnion(a: Claim, b: Claim)
    ensures StrictlySorted(MergeOf(a, b).slots)
    ensures SortedBy(IntervalLe, MergeOf(a, b).intervals)
    ensures forall x :: x in MergeOf(a, b).slots <==> x in a.slots || x in b.slots
    ensures forall iv :: iv in MergeOf(a, b).intervals <==> iv in a.intervals || iv in b.intervals
    ensures forall x :: Covers(MergeOf(a, b).intervals, x) <==> Covers(a.intervals, x) || Covers(b.intervals, x)
  {
    SlotOrderIsTotal();
    SortIsSorted(SlotLe, a.slots + b.slots);
    SortMembers(SlotLe, a.slots + b.slots);
    DedupSorted(Sort(SlotLe, a.slots + b.slots));
    SortIsSorted(IntervalLe, a.intervals + b.intervals);
    SortMembers(IntervalLe, a.intervals + b.intervals);
    var m := MergeOf(a, b).intervals;
    forall x ensures Covers(m, x) <==> Covers(a.intervals, x) || Covers(b.intervals, x) {
      CoversConcat(a.intervals, b.intervals, x);
      SameMembersSameCover(m, a.intervals + b.intervals, x);
    }
  }

  lemma SameMembersSameCover(a: seq<Interval>, b: seq<Interval>, x: int)
    requires forall iv :: iv in a <==> iv in b
    ensures Covers(a, x) <==> Covers(b, x)
  {
  }

  /** Merging faithful claims about one truth gives a faithful claim, and keeps the invariant. */
  lemma MergeFaithful(a: Claim, b: Claim, truth: iset<int>)
    requires ValidClaim(a) && ValidClaim(b)
    requires Faithful(a, truth) && Faithful(b, truth)
    ensures ValidClaim(MergeOf(a, b)) && Faithful(MergeOf(a, b), truth)
  {
    MergeUnion(a, b);
  }

  // ---- exclude ------------------------------------------------------------------

  function ExcludeIntervals(ivs: seq<Interval>, exclusions: seq<Interval>): seq<Interval> {
    if ivs == [] then []
    else GapsOf(exclusions, ivs[0].lo, ivs[0].hi) + ExcludeIntervals(ivs[1..], exclusions)
  }

  function KeepCovered(slots: seq<u64>, ivs: seq<Interval>): seq<u64> {
    if slots == [] then []
    else (if Covers(ivs, slots[0]) then [slots[0]] else []) + KeepCovered(slots[1..], ivs)
  }

  function ExcludeOf(c: Claim, exclusions: seq<Interval>): Claim {
    var ivs := ExcludeIntervals(c.intervals, exclusions);
    Claim(KeepCovered(c.slots, ivs), ivs)
  }

  lemma ExcludeStep(ivs: seq<Interval>, exclusions: seq<Interval>, i: nat)
    requires i < |ivs|
    ensures ExcludeIntervals(ivs[i..], exclusions)
            == GapsOf(exclusions, ivs[i].lo, ivs[i].hi) + ExcludeIntervals(ivs[i + 1..], exclusions)
  {
    assert ivs[i..][1..] == ivs[i + 1..];
  }

  lemma {:induction false} ExcludeIntervalsExact(ivs: seq<Interval>, exclusions: seq<Interval>)
    requires Ordered(exclusions)
    ensures WellFormed(ExcludeIntervals(ivs, exclusions))
    ensures forall x :: Covers(ExcludeIntervals(ivs, exclusions), x)
                        <==> Covers(ivs, x) && !Covers(exclusions, x)
  {
    if ivs != [] {
      var g := GapsOf(exclusions, ivs[0].lo, ivs[0].hi);
      var r := ExcludeIntervals(ivs[1..], exclusions);
      ExcludeIntervalsExact(ivs[1..], exclusions);
      GapsExact(exclusions, ivs[0].lo, ivs[0].hi);
      forall x ensures Covers(g + r, x) <==> Covers(ivs, x) && !Covers(exclusions, x) {
        CoversConcat(g, r, x);
        CoversCons(ivs, x);
      }
    }
  }

  lemma {:induction false} KeepCoveredExact(slots: seq<u64>, ivs: seq<Interval>)
    ensures forall x :: x in KeepCovered(slots, ivs) <==> x in slots && Covers(ivs, x)
    ensures StrictlySorted(slots) ==> StrictlySorted(KeepCovered(slots, ivs))
  {
    if slots != [] {
      KeepCoveredExact(slots[1..], ivs);
      assert slots == [slots[0]] + slots[1..];
      var rest := KeepCovered(slots[1..], ivs);
      assert forall k :: 0 <= k < |rest| ==> rest[k] in slots[1..];
    }
  }

  /** `exclude` removes exactly the excluded slots from the vouched-for set, and keeps the
      answers for what is left. It does not keep the intervals in order. */
  lemma ExcludeExact(c: Claim, exclusions: seq<Interval>)
    requires Ordered(exclusions)
    ensures WellFormed(ExcludeOf(c, exclusions).intervals)
    ensures forall x :: Covers(ExcludeOf(c, exclusions).intervals, x)
                        <==> Covers(c.intervals, x) && !Covers(exclusions, x)
    ensures forall x :: x in ExcludeOf(c, exclusions).slots
                        <==> x in c.slots && Covers(c.intervals, x) && !Covers(exclusions, x)
    ensures StrictlySorted(c.slots) ==> StrictlySorted(ExcludeOf(c, exclusions).slots)
  {
    ExcludeIntervalsExact(c.intervals, exclusions);
    KeepCoveredExact(c.slots, ExcludeOf(c, exclusions).intervals);
  }

  /** Overlapping input intervals come out of `exclude` out of order: the order that `gaps`
      relies on is really broken, and only the final `merge` restores it. */
  lemma ExcludeBreaksOrder()
    ensures exists c: Claim, ex: seq<Interval> ::
              ValidClaim(c) && Ordered(ex) && !SortedBy(IntervalLe, ExcludeOf(c, ex).intervals)
  {
    var c := Claim([], [Interval(0, 9), Interval(1, 9)]);
    var ex := [Interval(5, 5)];
    assert ValidClaim(c) && Ordered(ex);
    assert GapsOf(ex, 0, 9) == [Interval(0, 4), Interval(6, 9)];
    assert GapsOf(ex, 1, 9) == [Interval(1, 4), Interval(6, 9)];
    assert c.intervals[1..] == [Interval(1, 9)] && c.intervals[1..][1..] == [];
    var out := ExcludeOf(c, ex).intervals;
    assert out == [Interval(0, 4), Interval(6, 9), Interval(1, 4), Interval(6, 9)];
    assert !IntervalLe(out[1], out[2]);
    assert !SortedBy(IntervalLe, ExcludeOf(c, ex).intervals);
  }

  // ---- merge_checked ------------------------------------------------------------

  function Max(a: u64, b: u64): u64 { if a >= b then a else b }
  function Min(a: u64, b: u64): u64 { if a <= b then a else b }

  function Overlap(p: Interval, q: Interval): Interval {
    Interval(Max(p.lo, q.lo), Min(p.hi, q.hi))
  }

  function SlotsWithin(slots: seq<u64>, iv: Interval): seq<u64> {
    if slots == [] then []
    else (if In(slots[0], iv) then [slots[0]] else []) + SlotsWithin(slots[1..], iv)
  }

  /** The two claims answer differently somewhere in the interval. */
  predicate Disagree(a: Claim, b: Claim, iv: Interval) {
    SlotsWithin(a.slots, iv) != SlotsWithin(b.slots, iv)
  }

  predicate Conflicting(a: Claim, b: Claim, p: Interval, q: Interval) {
    Overlap(p, q).lo <= Overlap(p, q).hi && Disagree(a, b, Overlap(p, q))
  }

  function ConflictsWith(a: Claim, b: Claim, p: Interval, qs: seq<Interval>): seq<Interval> {
    if qs == [] then []
    else ConflictsWith(a, b, p, qs[..|qs| - 1])
         + (if Conflicting(a, b, p, qs[|qs| - 1]) then [Overlap(p, qs[|qs| - 1])] else [])
  }

  function Conflicts(a: Claim, b: Claim, ps: seq<Interval>): seq<Interval> {
    if ps == [] then []
    else Conflicts(a, b, ps[..|ps| - 1]) + ConflictsWith(a, b, ps[|ps| - 1], b.intervals)
  }

  function Exclusions(a: Claim, b: Claim): seq<Interval> {
    Sort(IntervalLe, Conflicts(a, b, a.intervals))
  }

  function MergeCheckedOf(a: Claim, b: Claim): Claim {
    MergeOf(ExcludeOf(a, Exclusions(a, b)), ExcludeOf(b, Exclusions(a, b)))
  }

  predicate MergeCheckedChanged(a: Claim, b: Claim) {
    Conflicts(a, b, a.intervals) != []
  }

  /** The slot lies in an overlap of two claimed intervals on which the claims give different
      answers: some slot of that overlap is listed by exactly one of them. */
  ghost predicate InDisagreement(a: Claim, b: Claim, x: int) {
    exists p, q :: p in a.intervals && q in b.intervals && In(x, p) && In(x, q)
                   && OverlapDisagrees(a, b, p, q)
  }

  ghost predicate OverlapDisagrees(a: Claim, b: Claim, p: Interval, q: Interval) {
    exists y :: In(y, p) && In(y, q) && (y in a.slots) != (y in b.slots)
  }

  lemma {:induction false} SlotsWithinExact(slots: seq<u64>, iv: Interval)
    ensures forall x :: x in SlotsWithin(slots, iv) <==> x in slots && In(x, iv)
    ensures StrictlySorted(slots) ==> StrictlySorted(SlotsWithin(slots, iv))
  {
    if slots != [] {
      SlotsWithinExact(slots[1..], iv);
      assert slots == [slots[0]] + slots[1..];
      var rest := SlotsWithin(slots[1..], iv);
      assert forall k :: 0 <= k < |rest| ==> rest[k] in slots[1..];
    }
  }

  lemma DisagreeMeansDifferentSlots(a: Claim, b: Claim, p: Interval, q: Interval)
    requires StrictlySorted(a.slots) && StrictlySorted(b.slots)
    ensures Conflicting(a, b, p, q) <==> OverlapDisagrees(a, b, p, q)
  {
    var o := Overlap(p, q);
    SlotsWithinExact(a.slots, o);
    SlotsWithinExact(b.slots, o);
    assert forall y :: In(y, o) <==> In(y, p) && In(y, q);
    if !OverlapDisagrees(a, b, p, q) {
      forall x ensures x in SlotsWithin(a.slots, o) <==> x in SlotsWithin(b.slots, o) {
        assert x in SlotsWithin(a.slots, o) <==> x in a.slots && In(x, o);
        assert x in SlotsWithin(b.slots, o) <==> x in b.slots && In(x, o);
      }
      StrictlySortedIsUnique(SlotsWithin(a.slots, o), SlotsWithin(b.slots, o));
    }
  }

  lemma {:induction false} ConflictsWithMembers(a: Claim, b: Claim, p: Interval, qs: seq<Interval>)
    ensures forall o :: o in ConflictsWith(a, b, p, qs)
                        <==> exists q :: q in qs && Conflicting(a, b, p, q) && o == Overlap(p, q)
  {
    if qs != [] {
      var last := |qs| - 1;
      ConflictsWithMembers(a, b, p, qs[..last]);
      assert qs == qs[..last] + [qs[last]];
    }
  }

  lemma {:induction false} ConflictsMembers(a: Claim, b: Claim, ps: seq<Interval>)
    ensures forall o :: o in Conflicts(a, b, ps)
                        <==> exists p, q :: p in ps && q in b.intervals && Conflicting(a, b, p, q) && o == Overlap(p, q)
  {
    if ps != [] {
      var last := |ps| - 1;
      ConflictsMembers(a, b, ps[..last]);
      ConflictsWithMembers(a, b, ps[last], b.intervals);
      assert ps == ps[..last] + [ps[last]];
    }
  }

  lemma ConflictsCover(a: Claim, b: Claim, x: int)
    requires StrictlySorted(a.slots) && StrictlySorted(b.slots)
    ensures Covers(Conflicts(a, b, a.intervals), x) <==> InDisagreement(a, b, x)
  {
    var conflicts := Conflicts(a, b, a.intervals);
    ConflictsMembers(a, b, a.intervals);
    if Covers(conflicts, x) {
      var o :| o in conflicts && In(x, o);
      var p, q :| p in a.intervals && q in b.intervals && Conflicting(a, b, p, q) && o == Overlap(p, q);
      DisagreeMeansDifferentSlots(a, b, p, q);
      assert In(x, p) && In(x, q);
    }
    if InDisagreement(a, b, x) {
      var p, q :| p in a.intervals && q in b.intervals && In(x, p) && In(x, q) && OverlapDisagrees(a, b, p, q);
      DisagreeMeansDifferentSlots(a, b, p, q);
      assert Overlap(p, q) in conflicts && In(x, Overlap(p, q));
    }
  }

  lemma ConflictsWellFormed(a: Claim, b: Claim)
    ensures WellFormed(Conflicts(a, b, a.intervals))
    ensures Conflicts(a, b, a.intervals) != [] <==> exists x :: Covers(Conflicts(a, b, a.intervals), x)
  {
    var conflicts := Conflicts(a, b, a.intervals);
    ConflictsMembers(a, b, a.intervals);
    if conflicts != [] {
      var o := conflicts[0];
      assert o in conflicts && In(o.lo, o);
      assert Covers(conflicts, o.lo);
    }
  }

  lemma ExclusionsExact(a: Claim, b: Claim)
    requires StrictlySorted(a.slots) && StrictlySorted(b.slots)
    ensures Ordered(Exclusions(a, b))
    ensures forall x :: Covers(Exclusions(a, b), x) <==> InDisagreement(a, b, x)
    ensures MergeCheckedChanged(a, b) <==> exists x :: InDisagreement(a, b, x)
  {
    var conflicts := Conflicts(a, b, a.intervals);
    SlotOrderIsTotal();
    SortIsSorted(IntervalLe, conflicts);
    SortMembers(IntervalLe, conflicts);
    ConflictsWellFormed(a, b);
    forall x ensures Covers(conflicts, x) <==> InDisagreement(a, b, x) {
      ConflictsCover(a, b, x);
    }
    forall x ensures Covers(Exclusions(a, b), x) <==> Covers(conflicts, x) {
      SameMembersSameCover(Exclusions(a, b), conflicts, x);
    }
  }

  /** `merge_checked` is exact: it vouches for what either input vouched for, minus the
      disagreeing overlaps; it answers as the inputs did there; it reports whether anything
      disagreed; and the result is a valid coverage again. */
  lemma MergeCheckedExact(a: Claim, b: Claim)
    requires StrictlySorted(a.slots) && StrictlySorted(b.slots)
    ensures ValidClaim(MergeCheckedOf(a, b))
    ensures forall x :: Covers(MergeCheckedOf(a, b).intervals, x)
              <==> (Covers(a.intervals, x) || Covers(b.intervals, x)) && !InDisagreement(a, b, x)
    ensures forall x :: x in MergeCheckedOf(a, b).slots
              <==> ((x in a.slots && Covers(a.intervals, x)) || (x in b.slots && Covers(b.intervals, x)))
                   && !InDisagreement(a, b, x)
    ensures MergeCheckedChanged(a, b) <==> exists x :: InDisagreement(a, b, x)
  {
    var ex := Exclusions(a, b);
    ExclusionsExact(a, b);
    ExcludeExact(a, ex);
    ExcludeExact(b, ex);
    MergeUnion(ExcludeOf(a, ex), ExcludeOf(b, ex));
  }

  /** Where both inputs claimed a slot that survives, the result agrees with both. */
  lemma SurvivorsAgreeWithBoth(a: Claim, b: Claim, x: int)
    requires StrictlySorted(a.slots) && StrictlySorted(b.slots)
    requires Covers(a.intervals, x) && Covers(b.intervals, x)
    requires Covers(MergeCheckedOf(a, b).intervals, x)
    ensures x in MergeCheckedOf(a, b).slots <==> x in a.slots
    ensures x in MergeCheckedOf(a, b).slots <==> x in b.slots
  {
    MergeCheckedExact(a, b);
    var p :| p in a.intervals && In(x, p);
    var q :| q in b.intervals && In(x, q);
    assert !OverlapDisagrees(a, b, p, q);
  }

  lemma DisagreementSymmetric(a: Claim, b: Claim, x: int)
    ensures InDisagreement(a, b, x) <==> InDisagreement(b, a, x)
  {
    if InDisagreement(a, b, x) {
      var p, q :| p in a.intervals && q in b.intervals && In(x, p) && In(x, q) && OverlapDisagrees(a, b, p, q);
      assert OverlapDisagrees(b, a, q, p);
    }
    if InDisagreement(b, a, x) {
      var p, q :| p in b.intervals && q in a.intervals && In(x, p) && In(x, q) && OverlapDisagrees(b, a, p, q);
      assert OverlapDisagrees(a, b, q, p);
    }
  }

  lemma {:induction false} ExcludeDependsOnExcludedSlots(ivs: seq<Interval>, e: seq<Interval>, f: seq<Interval>)
    requires Ordered(e) && Ordered(f)
    requires forall x :: Covers(e, x) <==> Covers(f, x)
    ensures ExcludeIntervals(ivs, e) == ExcludeIntervals(ivs, f)
  {
    if ivs != [] {
      GapsDependOnCoveredSlots(e, f, ivs[0].lo, ivs[0].hi);
      ExcludeDependsOnExcludedSlots(ivs[1..], e, f);
    }
  }

  /** Neither input is privileged: swapping them gives the same slots, the same intervals and
      the same verdict. */
  lemma MergeCheckedCommutes(a: Claim, b: Claim)
    requires StrictlySorted(a.slots) && StrictlySorted(b.slots)
    ensures MergeCheckedOf(a, b) == MergeCheckedOf(b, a)
    ensures MergeCheckedChanged(a, b) == MergeCheckedChanged(b, a)
  {
    var e, f := Exclusions(a, b), Exclusions(b, a);
    MergeCheckedExact(a, b);
    MergeCheckedExact(b, a);
    ExclusionsExact(a, b);
    ExclusionsExact(b, a);
    forall x ensures InDisagreement(a, b, x) <==> InDisagreement(b, a, x) {
      DisagreementSymmetric(a, b, x);
    }
    StrictlySortedIsUnique(MergeCheckedOf(a, b).slots, MergeCheckedOf(b, a).slots);
    ExcludeDependsOnExcludedSlots(a.intervals, e, f);
    ExcludeDependsOnExcludedSlots(b.intervals, e, f);
    var u, v := ExcludeIntervals(a.intervals, e), ExcludeIntervals(b.intervals, e);
    SlotOrderIsTotal();
    SortIsSorted(IntervalLe, u + v);
    SortIsSorted(IntervalLe, v + u);
    SortedIsUnique(IntervalLe, Sort(IntervalLe, u + v), Sort(IntervalLe, v + u));
  }

  /** Two claims that contradict each other about a slot both lose it. */
  lemma ContradictionSilences(a: Claim, b: Claim, x: int)
    requires StrictlySorted(a.slots) && StrictlySorted(b.slots)
    requires Covers(a.intervals, x) && Covers(b.intervals, x) && (x in a.slots) != (x in b.slots)
    ensures !Covers(MergeCheckedOf(a, b).intervals, x)
  {
    var p :| p in a.intervals && In(x, p);
    var q :| q in b.intervals && In(x, q);
    assert OverlapDisagrees(a, b, p, q);
    assert InDisagreement(a, b, x);
    MergeCheckedExact(a, b);
  }

  /** A claim nobody else speaks to is kept. */
  lemma SingleVoiceIsHeard(a: Claim, b: Claim, x: int)
    requires StrictlySorted(a.slots) && StrictlySorted(b.slots)
    requires !Covers(a.intervals, x) && Covers(b.intervals, x)
    ensures Covers(MergeCheckedOf(a, b).intervals, x)
    ensures x in MergeCheckedOf(a, b).slots <==> x in b.slots
  {
    assert !InDisagreement(a, b, x);
    MergeCheckedExact(a, b);
  }

  /** A claim does not contradict itself. */
  lemma MergeWithItself(b: Claim, x: int)
    requires StrictlySorted(b.slots) && Covers(b.intervals, x)
    ensures Covers(MergeCheckedOf(b, b).intervals, x)
    ensures x in MergeCheckedOf(b, b).slots <==> x in b.slots
  {
    assert !InDisagreement(b, b, x);
    MergeCheckedExact(b, b);
  }

  /** The order of three sources matters. Whenever two claims contradict each other about a slot, a
      third one that repeats the second is heard about it when it comes last, and silenced when it
      is merged with the second first. */
  lemma MergeCheckedIsNotAssociative(a: Claim, b: Claim, x: int)
    requires ValidClaim(a) && ValidClaim(b)
    requires Covers(a.intervals, x) && Covers(b.intervals, x) && (x in a.slots) != (x in b.slots)
    ensures Covers(MergeCheckedOf(MergeCheckedOf(a, b), b).intervals, x)
    ensures !Covers(MergeCheckedOf(a, MergeCheckedOf(b, b)).intervals, x)
  {
    MergeCheckedExact(a, b);
    MergeCheckedExact(b, b);
    ContradictionSilences(a, b, x);
    SingleVoiceIsHeard(MergeCheckedOf(a, b), b, x);
    MergeWithItself(b, x);
    ContradictionSilences(a, MergeCheckedOf(b, b), x);
  }

  // ---- Refining the full scan ---------------------------------------------------

  lemma FaithfulOverlapsAgree(a: Claim, b: Claim, truth: iset<int>, p: Interval, q: Interval)
    requires Faithful(a, truth) && Faithful(b, truth)
    requires p in a.intervals && q in b.intervals
    ensures !OverlapDisagrees(a, b, p, q)
  {
    assert forall y :: In(y, p) && In(y, q) ==> Covers(a.intervals, y) && Covers(b.intervals, y);
  }

  /** Two faithful inputs never disagree, so nothing is excised and the merge stays faithful. */
  lemma FaithfulInputsNeverConflict(a: Claim, b: Claim, truth: iset<int>)
    requires StrictlySorted(a.slots) && StrictlySorted(b.slots)
    requires Faithful(a, truth) && Faithful(b, truth)
    ensures !MergeCheckedChanged(a, b)
    ensures ValidClaim(MergeCheckedOf(a, b))
    ensures Faithful(MergeCheckedOf(a, b), truth)
    ensures forall x :: Covers(MergeCheckedOf(a, b).intervals, x) <==> Covers(a.intervals, x) || Covers(b.intervals, x)
  {
    forall p, q | p in a.intervals && q in b.intervals ensures !OverlapDisagrees(a, b, p, q) {
      FaithfulOverlapsAgree(a, b, truth, p, q);
    }
    MergeCheckedExact(a, b);
  }

  /** A faithful input is protected: on every slot it vouched for, whatever the other input
      claims, the checked merge either tells the truth or vouches for nothing. */
  lemma FaithfulInputIsNeverOverruled(a: Claim, b: Claim, truth: iset<int>, x: int)
    requires StrictlySorted(a.slots) && StrictlySorted(b.slots)
    requires Faithful(a, truth) && Covers(a.intervals, x)
    requires Covers(MergeCheckedOf(a, b).intervals, x)
    ensures x in MergeCheckedOf(a, b).slots <==> x in truth
  {
    MergeCheckedExact(a, b);
    if Covers(b.intervals, x) {
      SurvivorsAgreeWithBoth(a, b, x);
    }
  }

  /** Coverage plus gap filling is the full scan: the claimed slots and the true slots inside
      the gaps are disjoint, and together they are the true slots of the range. */
  lemma GapFillingRefinesScan(c: Claim, truth: iset<int>, start: u64, end: u64, x: int)
    requires ValidClaim(c) && Faithful(c, truth)
    ensures !(x in c.slots && Covers(GapsOf(c.intervals, start, end), x))
    ensures (start <= x <= end && x in c.slots) || (x in truth && Covers(GapsOf(c.intervals, start, end), x))
            <==> start <= x <= end && x in truth
  {
    GapsExact(c.intervals, start, end);
  }

  // ---- The object ---------------------------------------------------------------

  class SlotCoverage {
    var slots: seq<u64>
    var intervals: seq<Interval>

    function Value(): Claim
      reads this
    {
      Claim(slots, intervals)
    }

    constructor (slots: seq<u64>, start: u64, end: u64)
      ensures Value() == Claim(slots, [Interval(start, end)])
    {
      this.slots := slots;
      this.intervals := [Interval(start, end)];
    }

    constructor Of(c: Claim)
      ensures Value() == c
    {
      slots := c.slots;
      intervals := c.intervals;
    }

    /** The caller gives `other` up. */
    method Merge(other: SlotCoverage)
      modifies this
      ensures Value() == MergeOf(old(Value()), old(other.Value()))
    {
      slots := slots + other.slots;
      slots := Sort(SlotLe, slots);
      slots := Dedup(slots);
      intervals := intervals + other.intervals;
      intervals := Sort(IntervalLe, intervals);
    }

    method MergeChecked(other: SlotCoverage) returns (changed: bool)
      requires other != this
      modifies this, other
      ensures Value() == MergeCheckedOf(old(Value()), old(other.Value()))
      ensures changed == MergeCheckedChanged(old(Value()), old(other.Value()))
    {
      ghost var a, b := Value(), other.Value();
      var conflicts: seq<Interval> := [];
      for i := 0 to |intervals|
        invariant Value() == a && other.Value() == b
        invariant conflicts == Conflicts(a, b, a.intervals[..i])
      {
        var p := intervals[i];
        ghost var before := conflicts;
        for j := 0 to |other.intervals|
          invariant Value() == a && other.Value() == b
          invariant conflicts == before + ConflictsWith(a, b, p, b.intervals[..j])
        {
          var q := other.intervals[j];
          var overlap := Interval(Max(p.lo, q.lo), Min(p.hi, q.hi));
          if overlap.lo <= overlap.hi && SlotsWithin(slots, overlap) != SlotsWithin(other.slots, overlap) {
            conflicts := conflicts + [overlap];
          }
          assert b.intervals[..j + 1][..j] == b.intervals[..j];
        }
        assert b.intervals[..|b.intervals|] == b.intervals;
        assert a.intervals[..i + 1][..i] == a.intervals[..i];
      }
      assert a.intervals[..|a.intervals|] == a.intervals;
      changed := conflicts != [];
      conflicts := Sort(IntervalLe, conflicts);
      var exclusions := new SlotCoverage.Of(Claim([], conflicts));
      Exclude(exclusions);
      other.Exclude(exclusions);
      Merge(other);
    }

    method Exclude(exclusions: SlotCoverage)
      requires exclusions != this
      modifies this
      ensures Value() == ExcludeOf(old(Value()), old(exclusions.intervals))
    {
      ghost var c, ex := Value(), exclusions.intervals;
      var remaining: seq<Interval> := [];
      for i := 0 to |intervals|
        invariant Value() == c && exclusions.intervals == ex
        invariant remaining + ExcludeIntervals(c.intervals[i..], ex) == ExcludeIntervals(c.intervals, ex)
      {
        var gaps := exclusions.Gaps(intervals[i].lo, intervals[i].hi);
        ExcludeStep(c.intervals, ex, i);
        remaining := remaining + gaps;
      }
      assert ExcludeIntervals(c.intervals[|c.intervals|..], ex) == [];
      assert remaining == ExcludeIntervals(c.intervals, ex);
      intervals := remaining;
      slots := KeepCovered(slots, intervals);
    }

    method Gaps(start: u64, end: u64) returns (gaps: seq<Interval>)
      ensures gaps == GapsOf(intervals, start, end)
    {
      gaps := [];
      if start > end {
        return;
      }
      var cursor: u64 := start;
      for i := 0 to |intervals|
        invariant cursor <= end
        invariant gaps + GapsFrom(intervals[i..], cursor, end) == GapsFrom(intervals, start, end)
      {
        var floor, tip := intervals[i].lo, intervals[i].hi;
        assert intervals[i..][1..] == intervals[i + 1..];
        if tip < cursor {
          continue;
        }
        if floor > end {
          assert GapsFrom(intervals[i..], cursor, end) == [Interval(cursor, end)];
          break;
        }
        if floor > cursor {
          gaps := gaps + [Interval(cursor, floor - 1)];
        }
        if tip >= end {
          return;
        }
        cursor := tip + 1;
      }
      gaps := gaps + [Interval(cursor, end)];
    }
  }
}
