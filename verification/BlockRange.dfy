/** getBlocks over the cache tiers (crates/superbank-rpc/src/handlers/block_ranges.rs): what the
    head cache and the block index vouch for is merged, the disk cache is asked about the gaps,
    the primary about the gaps that remain. */
module BlockRanges {
  import opened Basics
  import opened Sorting
  import opened SlotCoverages

  /** A local tier's reply to a range read: a claim about some slots of that range. */
  type LocalTier = (u64, u64) -> Claim

  /** The primary's reply to a range read: the slots of the range, or a failed query. */
  type Primary = (u64, u64) -> Option<seq<u64>>

  ghost predicate Within(c: Claim, start: u64, end: u64) {
    forall x :: Covers(c.intervals, x) ==> start <= x <= end
  }

  ghost predicate GoodClaim(c: Claim, truth: iset<int>, start: u64, end: u64) {
    ValidClaim(c) && Faithful(c, truth) && Within(c, start, end)
  }

  ghost predicate GoodTier(tier: LocalTier, truth: iset<int>) {
    forall lo, hi :: GoodClaim(tier(lo, hi), truth, lo, hi)
  }

  ghost predicate GoodPrimary(primary: Primary, truth: iset<int>) {
    forall lo: u64, hi: u64 :: primary(lo, hi).Some? ==>
      && StrictlySorted(primary(lo, hi).value)
      && forall x :: x in primary(lo, hi).value <==> lo <= x <= hi && x in truth
  }

  // ---- memory_coverage ----------------------------------------------------------

  function MemoryClaim(head: Claim, index: Option<Claim>): Claim {
    if index.None? then head
    else if MergeCheckedChanged(head, index.value) then Claim([], [])
    else MergeCheckedOf(head, index.value)
  }

  /** A contradiction between head and index discards both, not merely the overlap. The index
      contributes when it claims anything and does not contradict the head. */
  method MemoryCoverage(head: Claim, index: Option<Claim>)
    returns (proof: SlotCoverage, contributed: bool, cacheChanged: bool)
    ensures fresh(proof)
    ensures proof.Value() == MemoryClaim(head, index)
    ensures cacheChanged <==> index.Some? && MergeCheckedChanged(head, index.value)
    ensures contributed <==> index.Some? && index.value.intervals != [] && !cacheChanged
  {
    proof := new SlotCoverage.Of(head);
    contributed, cacheChanged := false, false;
    if index.Some? {
      var indexed := new SlotCoverage.Of(index.value);
      contributed := indexed.intervals != [];
      cacheChanged := proof.MergeChecked(indexed);
      if cacheChanged {
        proof := new SlotCoverage.Of(Claim([], []));
        contributed := false;
      }
    }
  }

  lemma EmptyClaimIsGood(truth: iset<int>, start: u64, end: u64)
    ensures GoodClaim(Claim([], []), truth, start, end)
  {
  }

  lemma CheckedMergeIsGood(a: Claim, b: Claim, truth: iset<int>, start: u64, end: u64)
    requires GoodClaim(a, truth, start, end) && GoodClaim(b, truth, start, end)
    ensures GoodClaim(MergeCheckedOf(a, b), truth, start, end)
  {
    FaithfulInputsNeverConflict(a, b, truth);
    WithinUnion(MergeCheckedOf(a, b), a, b, start, end);
  }

  lemma WithinUnion(m: Claim, a: Claim, b: Claim, start: u64, end: u64)
    requires Within(a, start, end) && Within(b, start, end)
    requires forall x :: Covers(m.intervals, x) ==> Covers(a.intervals, x) || Covers(b.intervals, x)
    ensures Within(m, start, end)
  {
  }

  /** The memory proof tells the truth when the tiers do, and also when they contradict each
      other. */
  lemma MemoryClaimIsGood(head: Claim, index: Option<Claim>, truth: iset<int>, start: u64, end: u64)
    requires ValidClaim(head) && (index.Some? ==> ValidClaim(index.value))
    requires Within(head, start, end) && (index.Some? ==> Within(index.value, start, end))
    requires (index.Some? && MergeCheckedChanged(head, index.value))
             || (Faithful(head, truth) && (index.Some? ==> Faithful(index.value, truth)))
    ensures GoodClaim(MemoryClaim(head, index), truth, start, end)
  {
    if index.None? {
    } else if MergeCheckedChanged(head, index.value) {
      EmptyClaimIsGood(truth, start, end);
    } else {
      CheckedMergeIsGood(head, index.value, truth, start, end);
    }
  }

  /** Without a contradiction the memory proof covers what either tier covers, and lists what either
      lists there; with one it covers nothing. */
  lemma MemoryClaimIsExact(head: Claim, index: Option<Claim>, x: int)
    requires ValidClaim(head) && (index.Some? ==> ValidClaim(index.value))
    ensures Covers(MemoryClaim(head, index).intervals, x) <==> MemoryCovers(head, index, x)
    ensures Covers(MemoryClaim(head, index).intervals, x) ==>
              (x in MemoryClaim(head, index).slots <==> x in head.slots || (index.Some? && x in index.value.slots))
  {
    if index.Some? {
      MergeCheckedExact(head, index.value);
    }
  }

  ghost predicate MemoryCovers(head: Claim, index: Option<Claim>, x: int) {
    if index.None? then Covers(head.intervals, x)
    else
      && (forall y :: !InDisagreement(head, index.value, y))
      && (Covers(head.intervals, x) || Covers(index.value.intervals, x))
  }

  // ---- disk_coverage ------------------------------------------------------------

  /** The disk cache, asked about each gap of the claim, vouches for the slot. */
  ghost predicate DiskCovers(intervals: seq<Interval>, start: u64, end: u64, disk: LocalTier, x: int) {
    RepliesCover(GapsOf(intervals, start, end), disk, x)
  }

  ghost predicate RepliesCover(gaps: seq<Interval>, disk: LocalTier, x: int) {
    exists g :: g in gaps && Covers(disk(g.lo, g.hi).intervals, x)
  }

  ghost predicate SomeReply(gaps: seq<Interval>, disk: LocalTier) {
    exists g :: g in gaps && disk(g.lo, g.hi).intervals != []
  }

  /** Every gap is asked of the disk cache, and the proof grows by exactly what it vouches for. */
  method DiskCoverage(proof: SlotCoverage, start: u64, end: u64, disk: LocalTier, ghost truth: iset<int>)
    returns (contributed: bool)
    requires GoodClaim(proof.Value(), truth, start, end) && GoodTier(disk, truth)
    modifies proof
    ensures GoodClaim(proof.Value(), truth, start, end)
    ensures forall x :: Covers(proof.intervals, x) <==>
              Covers(old(proof.intervals), x) || DiskCovers(old(proof.intervals), start, end, disk, x)
    ensures contributed <==> SomeReply(GapsOf(old(proof.intervals), start, end), disk)
  {
    contributed := false;
    var gaps := proof.Gaps(start, end);
    GapsExact(proof.intervals, start, end);
    for i := 0 to |gaps|
      invariant GoodClaim(proof.Value(), truth, start, end)
      invariant forall x :: Covers(proof.intervals, x) <==>
                  Covers(old(proof.intervals), x) || RepliesCover(gaps[..i], disk, x)
      invariant contributed <==> SomeReply(gaps[..i], disk)
    {
      var reply := disk(gaps[i].lo, gaps[i].hi);
      assert GoodClaim(reply, truth, gaps[i].lo, gaps[i].hi);
      assert start <= gaps[i].lo && gaps[i].hi <= end by { assert gaps[i] in gaps; }
      ghost var before := proof.Value();
      MergeUnion(before, reply);
      MergeFaithful(before, reply, truth);
      RepliesStep(gaps, i, disk);
      var diskProof := new SlotCoverage.Of(reply);
      contributed := contributed || diskProof.intervals != [];
      proof.Merge(diskProof);
    }
    assert gaps[..|gaps|] == gaps;
  }

  lemma RepliesStep(gaps: seq<Interval>, i: nat, disk: LocalTier)
    requires i < |gaps|
    ensures forall x :: RepliesCover(gaps[..i + 1], disk, x)
              <==> RepliesCover(gaps[..i], disk, x) || Covers(disk(gaps[i].lo, gaps[i].hi).intervals, x)
    ensures SomeReply(gaps[..i + 1], disk)
            <==> SomeReply(gaps[..i], disk) || disk(gaps[i].lo, gaps[i].hi).intervals != []
  {
    assert gaps[..i + 1] == gaps[..i] + [gaps[i]];
  }

  // ---- The primary reads --------------------------------------------------------

  /** `merge_sorted_block_slots`: a two-pointer merge that drops repeats. */
  method MergeSortedBlockSlots(a: seq<u64>, b: seq<u64>) returns (merged: seq<u64>)
    requires SortedBy(SlotLe, a) && SortedBy(SlotLe, b)
    ensures SortedBy(SlotLe, merged)
    ensures (a != [] && b != []) || (StrictlySorted(a) && StrictlySorted(b)) ==> StrictlySorted(merged)
    ensures forall x :: x in merged <==> x in a || x in b
    ensures (a == [] ==> merged == b) && (b == [] ==> merged == a)
  {
    if a == [] {
      return b;
    }
    if b == [] {
      return a;
    }
    merged := [];
    var i, j := 0, 0;
    var last: Option<u64> := None;
    while i < |a| || j < |b|
      invariant 0 <= i <= |a| && 0 <= j <= |b|
      invariant StrictlySorted(merged)
      invariant forall x :: x in merged <==> x in a[..i] || x in b[..j]
      invariant last == if merged == [] then None else Some(merged[|merged| - 1])
      invariant last.Some? && i < |a| ==> last.value <= a[i]
      invariant last.Some? && j < |b| ==> last.value <= b[j]
      decreases |a| - i + |b| - j
    {
      var next: u64;
      if i < |a| && (j == |b| || a[i] <= b[j]) {
        next := a[i];
        assert a[..i + 1] == a[..i] + [a[i]];
        i := i + 1;
      } else {
        next := b[j];
        assert b[..j + 1] == b[..j] + [b[j]];
        j := j + 1;
      }
      if last != Some(next) {
        merged := merged + [next];
        last := Some(next);
      }
    }
    assert a[..i] == a && b[..j] == b;
  }

  ghost predicate PrimaryFails(primary: Primary, gaps: seq<Interval>) {
    exists g :: g in gaps && primary(g.lo, g.hi).None?
  }

  /** Ask the primary for every gap, giving up at the first failure. */
  method FillFromPrimary(slots: seq<u64>, gaps: seq<Interval>, primary: Primary, ghost truth: iset<int>)
    returns (answer: Option<seq<u64>>)
    requires StrictlySorted(slots) && GoodPrimary(primary, truth)
    ensures answer.None? <==> PrimaryFails(primary, gaps)
    ensures answer.Some? ==> StrictlySorted(answer.value)
    ensures answer.Some? ==> forall x :: x in answer.value <==> x in slots || (Covers(gaps, x) && x in truth)
  {
    var merged := slots;
    for i := 0 to |gaps|
      invariant StrictlySorted(merged)
      invariant !PrimaryFails(primary, gaps[..i])
      invariant forall x :: x in merged <==> x in slots || (Covers(gaps[..i], x) && x in truth)
    {
      var reply := primary(gaps[i].lo, gaps[i].hi);
      assert gaps[..i + 1] == gaps[..i] + [gaps[i]];
      if reply.None? {
        assert gaps[i] in gaps;
        return None;
      }
      ghost var before := merged;
      merged := MergeSortedBlockSlots(merged, reply.value);
      forall x ensures x in merged <==> x in slots || (Covers(gaps[..i + 1], x) && x in truth) {
        CoversConcat(gaps[..i], [gaps[i]], x);
        assert Covers([gaps[i]], x) <==> In(x, gaps[i]) by { assert gaps[i] in [gaps[i]]; }
      }
    }
    assert gaps[..|gaps|] == gaps;
    answer := Some(merged);
  }

  ghost predicate LocalCovers(memory: seq<Interval>, start: u64, end: u64, disk: Option<LocalTier>, x: int) {
    Covers(memory, x) || (disk.Some? && DiskCovers(memory, start, end, disk.value, x))
  }

  /** getBlocks end to end: an answer is the ascending list of exactly the true slots of the
      range, provided each tier tells the truth about the slots it vouches for. The head cache
      and the block index need not even do that when they contradict each other. Without an
      answer, either that contradiction hit an authoritative head tip, or a primary read of an
      uncovered gap failed. */
  method GetBlockSlots(start: u64, end: u64, authoritativeHeadTip: bool,
                       head: Claim, index: Option<Claim>, disk: Option<LocalTier>, primary: Primary,
                       ghost truth: iset<int>)
    returns (answer: Option<seq<u64>>, ghost asked: seq<Interval>)
    requires ValidClaim(head) && (index.Some? ==> ValidClaim(index.value))
    requires Within(head, start, end) && (index.Some? ==> Within(index.value, start, end))
    requires (index.Some? && MergeCheckedChanged(head, index.value))
             || (Faithful(head, truth) && (index.Some? ==> Faithful(index.value, truth)))
    requires disk.Some? ==> GoodTier(disk.value, truth)
    requires GoodPrimary(primary, truth)
    ensures answer.Some? ==> StrictlySorted(answer.value)
    ensures answer.Some? ==> forall x :: x in answer.value <==> start <= x <= end && x in truth
    ensures answer.None? <==>
              (authoritativeHeadTip && index.Some? && MergeCheckedChanged(head, index.value))
              || PrimaryFails(primary, asked)
    ensures Canonical(asked)
    // The primary is asked about exactly the slots of the range that no local tier vouches for.
    ensures !(authoritativeHeadTip && index.Some? && MergeCheckedChanged(head, index.value)) ==>
              forall x :: Covers(asked, x) <==>
                start <= x <= end && !LocalCovers(MemoryClaim(head, index).intervals, start, end, disk, x)
  {
    asked := [];
    var proof, _, cacheChanged := MemoryCoverage(head, index);
    MemoryClaimIsGood(head, index, truth, start, end);
    if authoritativeHeadTip && cacheChanged {
      return None, asked;
    }
    if disk.Some? {
      var _ := DiskCoverage(proof, start, end, disk.value, truth);
    }
    var gaps := proof.Gaps(start, end);
    GapsExact(proof.intervals, start, end);
    asked := gaps;
    ghost var claim := proof.Value();
    answer := FillFromPrimary(proof.slots, gaps, primary, truth);
    forall x ensures answer.Some? ==> (x in answer.value <==> start <= x <= end && x in truth) {
      GapFillingRefinesScan(claim, truth, start, end, x);
    }
  }
}
