/** Marking the matched characters of a name (site/js/config-search.js, `highlightRanges`, and
    site/js/config-page.js, `setHighlight`). */
module Highlighting {
  import opened Basics
  import opened SearchText
  import opened ChunkMatching
  import opened SubsequenceMatching

  /** Source positions from `lo` up to, not including, `hi`. */
  datatype Range = Range(lo: nat, hi: nat)

  // ---- Which characters a token matches -------------------------------------------

  predicate OccursAt(text: string, token: string, at: nat) {
    at + |token| <= |text| && text[at..at + |token|] == token
  }

  /** `String.prototype.indexOf` for a string: the first occurrence. */
  function FindString(text: string, token: string, from: nat): (r: int)
    ensures r == -1 || (from <= r && OccursAt(text, token, r))
    ensures forall k: nat :: from <= k && (r == -1 || k < r) ==> !OccursAt(text, token, k)
    decreases |text| - from
  {
    if from + |token| > |text| then -1
    else if OccursAt(text, token, from) then from
    else FindString(text, token, from + 1)
  }

  /** The first occurrence; failing that, word-prefix chunks; failing that, the tightest
      subsequence; failing that, nothing. */
  ghost predicate Picked(token: string, name: Name, ix: seq<nat>)
    requires WordsOk(name)
  {
    var at := FindString(name.text, token, 0);
    if at >= 0 then ix == Span(at, |token|)
    else
      match Plain(token, name, 0, 0)
      case Some(chunks) => ix == chunks
      case None =>
        if |token| < MIN_SUBSEQUENCE then ix == []
        else Tightest(token, name.text, |name.text|, if ix == [] then None else Some(ix))
  }

  method TokenIndices(token: string, name: Name) returns (ix: seq<nat>)
    requires WordsOk(name)
    ensures Picked(token, name, ix)
    ensures ix == [] || Embeds(token, name.text, ix)
  {
    var at := FindString(name.text, token, 0);
    if at != -1 {
      SpanEmbeds(token, name.text, at);
      return Span(at, |token|);
    }
    var fuzzy := ChunkMatch(token, name);
    if fuzzy.None? {
      fuzzy := SubsequenceMatch(token, name.text);
    }
    ix := if fuzzy.Some? then fuzzy.value else [];
  }

  function Members(ix: seq<nat>): set<nat> {
    set k | k in ix
  }

  /** The compacted indices to mark: all of them when the query is the whole name, otherwise the
      union of what the tokens matched. */
  ghost predicate Hits(tokens: seq<string>, name: Name, picks: seq<seq<nat>>, hit: set<nat>)
    requires WordsOk(name)
  {
    if name.text == Join(tokens) then hit == Members(Span(0, |name.text|))
    else
      && |picks| == |tokens|
      && (forall i :: 0 <= i < |tokens| ==> Picked(tokens[i], name, picks[i]))
      && (forall k :: k in hit <==> exists i :: 0 <= i < |picks| && k in picks[i])
  }

  method CollectHits(tokens: seq<string>, name: Name) returns (hit: set<nat>, ghost picks: seq<seq<nat>>)
    requires WordsOk(name)
    ensures Hits(tokens, name, picks, hit)
    ensures forall k :: k in hit ==> k < |name.text|
  {
    hit := {};
    picks := [];
    if name.text == Join(tokens) {
      hit := Members(Span(0, |name.text|));
      return;
    }
    for t := 0 to |tokens|
      invariant |picks| == t
      invariant forall i :: 0 <= i < t ==> Picked(tokens[i], name, picks[i])
      invariant forall k :: k in hit <==> exists i :: 0 <= i < |picks| && k in picks[i]
      invariant forall k :: k in hit ==> k < |name.text|
    {
      var ix := TokenIndices(tokens[t], name);
      ghost var before, was := picks, hit;
      hit := hit + Members(ix);
      picks := picks + [ix];
      forall k ensures k in hit <==> exists i :: 0 <= i < |picks| && k in picks[i] {
        if k in ix {
          assert k in picks[t];
        }
        if k in was {
          var i :| 0 <= i < |before| && k in before[i];
          assert k in picks[i];
        }
      }
    }
  }

  // ---- From characters to ranges ----------------------------------------------------

  ghost predicate InRanges(ranges: seq<Range>, p: nat) {
    exists r :: r in ranges && r.lo <= p < r.hi
  }

  predicate OnlySeparators(s: string) {
    forall c :: c in s ==> !IsAlnum(c)
  }

  ghost predicate UnmatchedBetween(str: string, matched: set<nat>, a: nat, b: nat) {
    exists p :: a <= p < b && p < |str| && IsAlnum(str[p]) && p !in matched
  }

  /** In bounds, non-empty, beginning and ending on a matched character. */
  ghost predicate Anchored(str: string, matched: set<nat>, r: Range) {
    r.lo < r.hi <= |str| && r.lo in matched && r.hi - 1 in matched
  }

  /** The ranges mark exactly the matched characters among the letters and digits, bridge
      nothing but separators, and are as few as that allows. */
  ghost predicate Marks(str: string, matched: set<nat>, ranges: seq<Range>) {
    && (forall i :: 0 <= i < |ranges| ==> Anchored(str, matched, ranges[i]))
    && (forall i, j :: 0 <= i < j < |ranges| ==>
          ranges[i].hi < ranges[j].lo && UnmatchedBetween(str, matched, ranges[i].hi, ranges[j].lo))
    && (forall p {:trigger InRanges(ranges, p)} {:trigger p in matched} ::
          0 <= p < |str| && IsAlnum(str[p]) ==> (InRanges(ranges, p) <==> p in matched))
  }

  function Ascending(hit: set<nat>, n: nat): (r: seq<nat>)
    ensures Increasing(r)
    ensures forall k :: k in r <==> k in hit && k < n
  {
    if n == 0 then []
    else if n - 1 in hit then
      var rest := Ascending(hit, n - 1);
      assert forall i :: 0 <= i < |rest| ==> rest[i] in rest;
      rest + [n - 1]
    else Ascending(hit, n - 1)
  }

  lemma InRangesAppend(ranges: seq<Range>, r: Range, p: nat)
    ensures InRanges(ranges + [r], p) <==> InRanges(ranges, p) || r.lo <= p < r.hi
  {
    if r.lo <= p < r.hi {
      assert r in ranges + [r];
    }
    if InRanges(ranges, p) {
      var q :| q in ranges && q.lo <= p < q.hi;
      assert q in ranges + [r];
    }
  }

  /** The ranges built from the matched characters before position `done`. */
  ghost predicate MarksUpTo(str: string, matched: set<nat>, ranges: seq<Range>, done: nat) {
    && done <= |str|
    && (forall i :: 0 <= i < |ranges| ==> Anchored(str, matched, ranges[i]) && ranges[i].hi <= done)
    && (forall i, j :: 0 <= i < j < |ranges| ==>
          ranges[i].hi < ranges[j].lo && UnmatchedBetween(str, matched, ranges[i].hi, ranges[j].lo))
    && (forall p {:trigger InRanges(ranges, p)} {:trigger p in matched} ::
          0 <= p < done && IsAlnum(str[p]) ==> (InRanges(ranges, p) <==> p in matched))
    && (ranges == [] ==> done == 0)
    && (ranges != [] ==> ranges[|ranges| - 1].hi == done)
  }

  lemma OutOfRanges(str: string, matched: set<nat>, ranges: seq<Range>, done: nat, p: nat)
    requires MarksUpTo(str, matched, ranges, done) && done <= p
    ensures !InRanges(ranges, p)
  {
  }

  lemma SeparatorsAt(str: string, a: nat, b: nat)
    requires a <= b <= |str| && OnlySeparators(str[a..b])
    ensures forall p :: a <= p < b ==> !IsAlnum(str[p])
  {
    forall p | a <= p < b ensures !IsAlnum(str[p]) {
      assert str[p] == str[a..b][p - a];
    }
  }

  lemma ExtendLast(str: string, matched: set<nat>, ranges: seq<Range>, done: nat, x: nat)
    requires MarksUpTo(str, matched, ranges, done) && ranges != []
    requires done <= x < |str| && x in matched && OnlySeparators(str[done..x])
    ensures MarksUpTo(str, matched, ranges[..|ranges| - 1] + [Range(ranges[|ranges| - 1].lo, x + 1)], x + 1)
  {
    var n := |ranges| - 1;
    var prev := ranges[n];
    var next := ranges[..n] + [Range(prev.lo, x + 1)];
    assert ranges == ranges[..n] + [prev];
    SeparatorsAt(str, done, x);
    forall p | 0 <= p < x + 1 && IsAlnum(str[p]) ensures InRanges(next, p) <==> p in matched {
      InRangesAppend(ranges[..n], prev, p);
      InRangesAppend(ranges[..n], Range(prev.lo, x + 1), p);
    }
  }

  lemma NewRangeIsSeparate(str: string, matched: set<nat>, ranges: seq<Range>, done: nat, x: nat, i: nat)
    requires forall k :: 0 <= k < |ranges| ==> ranges[k].hi <= done
    requires done <= x < |str| && !OnlySeparators(str[done..x]) && i < |ranges|
    requires forall p :: done <= p < x && IsAlnum(str[p]) ==> p !in matched
    ensures ranges[i].hi < x && UnmatchedBetween(str, matched, ranges[i].hi, x)
  {
    var c :| c in str[done..x] && IsAlnum(c);
    var k :| 0 <= k < |str[done..x]| && str[done..x][k] == c;
    assert IsAlnum(str[done + k]);
  }

  lemma StartRangeMarks(str: string, matched: set<nat>, ranges: seq<Range>, done: nat, x: nat)
    requires MarksUpTo(str, matched, ranges, done)
    requires done <= x < |str| && x in matched
    requires forall p :: done <= p < x && IsAlnum(str[p]) ==> p !in matched
    ensures forall p :: 0 <= p < x + 1 && IsAlnum(str[p]) ==>
              (InRanges(ranges + [Range(x, x + 1)], p) <==> p in matched)
  {
    forall p | 0 <= p < x + 1 && IsAlnum(str[p]) ensures InRanges(ranges + [Range(x, x + 1)], p) <==> p in matched {
      InRangesAppend(ranges, Range(x, x + 1), p);
      if done <= p {
        OutOfRanges(str, matched, ranges, done, p);
      }
    }
  }

  lemma StartRangeApart(str: string, matched: set<nat>, ranges: seq<Range>, done: nat, x: nat)
    requires MarksUpTo(str, matched, ranges, done)
    requires done <= x < |str| && x in matched
    requires forall p :: done <= p < x && IsAlnum(str[p]) ==> p !in matched
    requires ranges == [] || !OnlySeparators(str[done..x])
    ensures var next := ranges + [Range(x, x + 1)];
            forall i, j :: 0 <= i < j < |next| ==>
              next[i].hi < next[j].lo && UnmatchedBetween(str, matched, next[i].hi, next[j].lo)
  {
    var next := ranges + [Range(x, x + 1)];
    forall i, j | 0 <= i < j < |next|
      ensures next[i].hi < next[j].lo && UnmatchedBetween(str, matched, next[i].hi, next[j].lo)
    {
      if j == |ranges| {
        NewRangeIsSeparate(str, matched, ranges, done, x, i);
      } else {
        assert next[i] == ranges[i] && next[j] == ranges[j];
      }
    }
  }

  lemma StartRange(str: string, matched: set<nat>, ranges: seq<Range>, done: nat, x: nat)
    requires MarksUpTo(str, matched, ranges, done)
    requires done <= x < |str| && x in matched
    requires forall p :: done <= p < x && IsAlnum(str[p]) ==> p !in matched
    requires ranges == [] || !OnlySeparators(str[done..x])
    ensures MarksUpTo(str, matched, ranges + [Range(x, x + 1)], x + 1)
  {
    StartRangeMarks(str, matched, ranges, done, x);
    StartRangeApart(str, matched, ranges, done, x);
  }

  /** Let the next matched character `x` join the last range across separators, or start a
      range of its own. */
  function AddMatch(str: string, ranges: seq<Range>, x: nat): seq<Range>
    requires x < |str| && (ranges != [] ==> ranges[|ranges| - 1].hi <= x)
  {
    var last := |ranges| - 1;
    if last >= 0 && OnlySeparators(str[ranges[last].hi..x]) then
      ranges[..last] + [Range(ranges[last].lo, x + 1)]
    else
      ranges + [Range(x, x + 1)]
  }

  lemma AddMatchMarks(str: string, matched: set<nat>, ranges: seq<Range>, done: nat, x: nat)
    requires MarksUpTo(str, matched, ranges, done)
    requires done <= x < |str| && x in matched
    requires forall p :: done <= p < x ==> p !in matched
    ensures MarksUpTo(str, matched, AddMatch(str, ranges, x), x + 1)
  {
    if ranges != [] && OnlySeparators(str[done..x]) {
      ExtendLast(str, matched, ranges, done, x);
    } else {
      StartRange(str, matched, ranges, done, x);
    }
  }

  lemma AllMarked(str: string, matched: set<nat>, ranges: seq<Range>, done: nat)
    requires MarksUpTo(str, matched, ranges, done)
    requires forall p :: p in matched ==> p < done
    ensures Marks(str, matched, ranges)
  {
    forall p | 0 <= p < |str| && IsAlnum(str[p]) ensures InRanges(ranges, p) <==> p in matched {
      if done <= p {
        OutOfRanges(str, matched, ranges, done, p);
      }
    }
  }

  ghost predicate Positions(str: string, sorted: seq<nat>, matched: set<nat>) {
    && Increasing(sorted)
    && (forall i :: 0 <= i < |sorted| ==> sorted[i] < |str|)
    && (forall p :: p in matched <==> p in sorted)
  }

  /** The first `i` matched characters are in the ranges. */
  ghost predicate Building(str: string, sorted: seq<nat>, matched: set<nat>, i: nat, ranges: seq<Range>) {
    && i <= |sorted|
    && MarksUpTo(str, matched, ranges, if i == 0 then 0 else sorted[i - 1] + 1)
  }

  lemma NextUnmatched(str: string, sorted: seq<nat>, matched: set<nat>, i: nat)
    requires Positions(str, sorted, matched) && i <= |sorted|
    ensures i < |sorted| ==> sorted[i] in matched && (i == 0 || sorted[i - 1] < sorted[i])
    ensures forall p :: p in matched ==>
              (i > 0 && p <= sorted[i - 1]) || (i < |sorted| && sorted[i] <= p)
  {
    if i < |sorted| { assert sorted[i] in sorted; }
    forall p | p in matched ensures (i > 0 && p <= sorted[i - 1]) || (i < |sorted| && sorted[i] <= p) {
      var k :| 0 <= k < |sorted| && sorted[k] == p;
      assert k < i ==> k == i - 1 || sorted[k] < sorted[i - 1];
    }
  }

  lemma BuildStep(str: string, sorted: seq<nat>, matched: set<nat>, i: nat, ranges: seq<Range>)
    requires Positions(str, sorted, matched) && Building(str, sorted, matched, i, ranges) && i < |sorted|
    ensures ranges != [] ==> ranges[|ranges| - 1].hi <= sorted[i]
    ensures Building(str, sorted, matched, i + 1, AddMatch(str, ranges, sorted[i]))
  {
    NextUnmatched(str, sorted, matched, i);
    AddMatchMarks(str, matched, ranges, if i == 0 then 0 else sorted[i - 1] + 1, sorted[i]);
  }

  lemma BuildDone(str: string, sorted: seq<nat>, matched: set<nat>, ranges: seq<Range>)
    requires Positions(str, sorted, matched) && Building(str, sorted, matched, |sorted|, ranges)
    ensures Marks(str, matched, ranges)
  {
    NextUnmatched(str, sorted, matched, |sorted|);
    AllMarked(str, matched, ranges, if |sorted| == 0 then 0 else sorted[|sorted| - 1] + 1);
  }

  method BuildRanges(str: string, sorted: seq<nat>, ghost matched: set<nat>) returns (ranges: seq<Range>)
    requires Positions(str, sorted, matched)
    ensures Marks(str, matched, ranges)
  {
    ranges := [];
    for i := 0 to |sorted|
      invariant Building(str, sorted, matched, i, ranges)
    {
      BuildStep(str, sorted, matched, i, ranges);
      ranges := AddMatch(str, ranges, sorted[i]);
    }
    BuildDone(str, sorted, matched, ranges);
  }

  /** Every letter and digit is matched, and one range takes them all in. */
  ghost predicate MarkedWhole(str: string, ranges: seq<Range>) {
    |ranges| <= 1 && forall p :: 0 <= p < |str| && IsAlnum(str[p]) ==> InRanges(ranges, p)
  }

  lemma AllMatchedIsWhole(str: string, name: Name, hit: set<nat>, matched: set<nat>, ranges: seq<Range>)
    requires Prepared(str, name) && hit == Members(Span(0, |name.text|)) && (forall k :: k in hit ==> k < |name.origin|)
    requires matched == (set k | k in hit :: name.origin[k]) && Marks(str, matched, ranges)
    ensures MarkedWhole(str, ranges)
  {
    forall p: nat | p < |str| && IsAlnum(str[p]) ensures p in matched {
      var k :| 0 <= k < |name.origin| && name.origin[k] == p;
      assert Span(0, |name.text|)[k] == k;
      assert k in hit;
    }
    assert |ranges| > 1 ==> UnmatchedBetween(str, matched, ranges[0].hi, ranges[1].lo);
  }

  /** `highlightRanges`: ordered, disjoint, in-bounds ranges whose letters and digits are exactly
      the matched ones, with an unmatched letter or digit between any two ranges. A query that
      spells the whole name, however it is spaced and punctuated, gets a single range over it. */
  method HighlightRanges(str: string, query: string)
    returns (ranges: seq<Range>, ghost matched: set<nat>, ghost name: Name, ghost picks: seq<seq<nat>>)
    ensures Marks(str, matched, ranges)
    ensures Tokenize(query) == [] || str == [] ==> ranges == []
    ensures Tokenize(query) != [] && str != [] ==>
              && Prepared(str, name) && WordsOk(name)
              && exists hit :: Hits(Tokenize(query), name, picks, hit) && (forall k :: k in hit ==> k < |name.origin|)
                               && matched == set k | k in hit :: name.origin[k]
    ensures Compact(Clip(query)) == Compact(str) ==> MarkedWhole(str, ranges)
  {
    var tokens := Tokenize(query);
    TokenizeJoins(query);
    picks, matched, name := [], {}, Name([], [], []);
    if tokens == [] || str == [] {
      if Compact(str) == [] {
        forall p: nat | p < |str| ensures !IsAlnum(str[p]) {
          if IsAlnum(str[p]) { CompactKeepsAlnum(str, p); }
        }
      }
      return [], matched, name, picks;
    }
    var prepared := PrepareName(str);
    name := prepared;
    PreparedWordsOk(str, prepared);
    var hit;
    hit, picks := CollectHits(tokens, prepared);
    var order := Ascending(hit, |prepared.text|);
    var sorted := seq(|order|, i requires 0 <= i < |order| => assert order[i] in order; prepared.origin[order[i]]);
    matched := set k | k in hit :: prepared.origin[k];
    forall p ensures p in matched <==> p in sorted {
      if p in matched {
        var k :| k in hit && prepared.origin[k] == p;
        assert k in order;
        var i :| 0 <= i < |order| && order[i] == k;
        assert sorted[i] == p;
      }
      if p in sorted {
        var i :| 0 <= i < |sorted| && sorted[i] == p;
        assert order[i] in order;
      }
    }
    assert forall i :: 0 <= i < |order| ==> order[i] in order;
    ranges := BuildRanges(str, sorted, matched);
    if prepared.text == Join(tokens) {
      AllMatchedIsWhole(str, prepared, hit, matched, ranges);
    }
  }

  // ---- Cutting the text ---------------------------------------------------------------

  datatype Piece = Text(s: string) | Mark(s: string)

  function Content(pieces: seq<Piece>): string {
    if pieces == [] then [] else pieces[0].s + Content(pieces[1..])
  }

  /** Where the marked pieces lie when the text starts at `at`. */
  function MarkedRanges(pieces: seq<Piece>, at: nat): seq<Range> {
    if pieces == [] then []
    else
      var end := at + |pieces[0].s|;
      (if pieces[0].Mark? then [Range(at, end)] else []) + MarkedRanges(pieces[1..], end)
  }

  lemma {:induction false} ContentAppend(pieces: seq<Piece>, p: Piece)
    ensures Content(pieces + [p]) == Content(pieces) + p.s
  {
    if pieces == [] {
      assert [] + [p] == [p];
      assert Content([p]) == p.s + Content([]);
    } else {
      ContentAppend(pieces[1..], p);
      assert (pieces + [p])[1..] == pieces[1..] + [p];
    }
  }

  lemma {:induction false} MarkedAppend(pieces: seq<Piece>, at: nat, p: Piece)
    ensures var end := at + |Content(pieces)|;
            MarkedRanges(pieces + [p], at)
            == MarkedRanges(pieces, at) + if p.Mark? then [Range(end, end + |p.s|)] else []
  {
    if pieces == [] {
      assert [] + [p] == [p];
      assert MarkedRanges([p], at) == (if p.Mark? then [Range(at, at + |p.s|)] else []) + MarkedRanges([], at + |p.s|);
    } else {
      MarkedAppend(pieces[1..], at + |pieces[0].s|, p);
      assert (pieces + [p])[1..] == pieces[1..] + [p];
    }
  }

  ghost predicate Disjoint(str: string, ranges: seq<Range>) {
    && (forall i :: 0 <= i < |ranges| ==> ranges[i].lo < ranges[i].hi <= |str|)
    && (forall i, j :: 0 <= i < j < |ranges| ==> ranges[i].hi <= ranges[j].lo)
  }

  /** The text before `at` is cut along the first `i` ranges. */
  ghost predicate CutUpTo(str: string, ranges: seq<Range>, i: nat, pieces: seq<Piece>, at: nat) {
    && i <= |ranges| && at <= |str| && (i < |ranges| ==> at <= ranges[i].lo)
    && Content(pieces) == str[..at]
    && MarkedRanges(pieces, 0) == ranges[..i]
  }

  /** No piece is empty, and the last one, if any, is marked. */
  ghost predicate WellCut(pieces: seq<Piece>) {
    && (forall p :: p in pieces ==> p.s != [])
    && NoTextsMeet(pieces) && (pieces != [] ==> pieces[|pieces| - 1].Mark?)
  }

  lemma WellCutStep(str: string, pieces: seq<Piece>, at: nat, r: Range)
    requires at <= r.lo < r.hi <= |str| && WellCut(pieces)
    ensures WellCut(pieces + CutRange(str, at, r))
  {
    var more := CutRange(str, at, r);
    forall i | 0 < i < |pieces + more| ensures (pieces + more)[i - 1].Mark? || (pieces + more)[i].Mark? {
      assert i < |pieces| ==> pieces[i - 1].Mark? || pieces[i].Mark?;
    }
  }

  lemma WellCutRest(pieces: seq<Piece>, rest: string)
    requires WellCut(pieces) && rest != []
    ensures NoTextsMeet(pieces + [Text(rest)]) && forall p :: p in pieces + [Text(rest)] ==> p.s != []
  {
  }

  /** Plain text comes in one piece. */
  ghost predicate NoTextsMeet(pieces: seq<Piece>) {
    forall i :: 0 < i < |pieces| ==> pieces[i - 1].Mark? || pieces[i].Mark?
  }

  /** The plain text before a range, if any, and the range itself. */
  function CutRange(str: string, at: nat, r: Range): seq<Piece>
    requires at <= r.lo <= r.hi <= |str|
  {
    (if r.lo > at then [Text(str[at..r.lo])] else []) + [Mark(str[r.lo..r.hi])]
  }

  lemma CutStep(str: string, ranges: seq<Range>, i: nat, pieces: seq<Piece>, at: nat)
    requires Disjoint(str, ranges) && CutUpTo(str, ranges, i, pieces, at) && i < |ranges|
    ensures CutUpTo(str, ranges, i + 1, pieces + CutRange(str, at, ranges[i]), ranges[i].hi)
  {
    var r := ranges[i];
    var before := if r.lo > at then pieces + [Text(str[at..r.lo])] else pieces;
    assert pieces + CutRange(str, at, r) == before + [Mark(str[r.lo..r.hi])];
    if r.lo > at {
      ContentAppend(pieces, Text(str[at..r.lo]));
      MarkedAppend(pieces, 0, Text(str[at..r.lo]));
    }
    ContentAppend(before, Mark(str[r.lo..r.hi]));
    MarkedAppend(before, 0, Mark(str[r.lo..r.hi]));
    assert str[..r.lo] == str[..at] + str[at..r.lo];
    assert str[..r.hi] == str[..r.lo] + str[r.lo..r.hi];
    assert ranges[..i + 1] == ranges[..i] + [r];
  }

  lemma CutRest(str: string, ranges: seq<Range>, pieces: seq<Piece>, at: nat)
    requires CutUpTo(str, ranges, |ranges|, pieces, at)
    ensures var all := if at < |str| then pieces + [Text(str[at..])] else pieces;
            Content(all) == str && MarkedRanges(all, 0) == ranges
  {
    assert ranges[..|ranges|] == ranges;
    assert str == str[..at] + str[at..];
    if at < |str| {
      ContentAppend(pieces, Text(str[at..]));
      MarkedAppend(pieces, 0, Text(str[at..]));
    }
  }

  lemma CutStart(str: string, ranges: seq<Range>)
    ensures CutUpTo(str, ranges, 0, [], 0)
  {
  }

  lemma CutNothing(str: string)
    ensures Content([Text(str)]) == str && MarkedRanges([Text(str)], 0) == []
  {
    ContentAppend([], Text(str));
    MarkedAppend([], 0, Text(str));
    assert [] + [Text(str)] == [Text(str)];
  }

  /** Cutting a text along the ranges and putting the pieces back together gives the text; the
      marked pieces lie exactly where the ranges do; no piece is empty unless the whole text is. */
  method Cut(str: string, ranges: seq<Range>) returns (pieces: seq<Piece>)
    requires Disjoint(str, ranges)
    ensures Content(pieces) == str
    ensures MarkedRanges(pieces, 0) == ranges
    ensures forall p :: p in pieces && p.s == [] ==> str == []
    ensures NoTextsMeet(pieces)
  {
    if ranges == [] {
      CutNothing(str);
      return [Text(str)];
    }
    pieces := [];
    var at: nat := 0;
    CutStart(str, ranges);
    for i := 0 to |ranges|
      invariant CutUpTo(str, ranges, i, pieces, at) && WellCut(pieces)
    {
      CutStep(str, ranges, i, pieces, at);
      WellCutStep(str, pieces, at, ranges[i]);
      pieces := pieces + CutRange(str, at, ranges[i]);
      at := ranges[i].hi;
    }
    CutRest(str, ranges, pieces, at);
    if at < |str| {
      WellCutRest(pieces, str[at..]);
      pieces := pieces + [Text(str[at..])];
    }
  }

  /** The ranges that `highlightRanges` builds can be cut along. */
  lemma MarksAreDisjoint(str: string, matched: set<nat>, ranges: seq<Range>)
    requires Marks(str, matched, ranges)
    ensures Disjoint(str, ranges)
  {
  }

  // ---- The ranges are determined by the matched characters --------------------------

  ghost predicate AllAlnum(str: string, matched: set<nat>) {
    forall p :: p in matched ==> p < |str| && IsAlnum(str[p])
  }

  /** Where the search for the `k`-th range starts. */
  function Before(ranges: seq<Range>, k: nat): nat
    requires k <= |ranges|
  {
    if k == 0 then 0 else ranges[k - 1].hi
  }

  /** What makes `r` the first range from `lo` on, said without the other ranges. */
  ghost predicate FirstFrom(str: string, matched: set<nat>, lo: nat, r: Range) {
    && Anchored(str, matched, r) && lo <= r.lo
    && (forall p :: p in matched && lo <= p ==> r.lo <= p && (p < r.hi || UnmatchedBetween(str, matched, r.hi, p)))
    && (forall p :: r.lo <= p < r.hi && IsAlnum(str[p]) ==> p in matched)
  }

  lemma LaterRange(str: string, matched: set<nat>, ranges: seq<Range>, k: nat, p: nat) returns (j: nat)
    requires AllAlnum(str, matched) && Marks(str, matched, ranges)
    requires k <= |ranges| && p in matched && Before(ranges, k) <= p
    ensures k <= j < |ranges| && ranges[j].lo <= p < ranges[j].hi
  {
    assert InRanges(ranges, p);
    var r :| r in ranges && r.lo <= p < r.hi;
    j :| 0 <= j < |ranges| && ranges[j] == r;
  }

  lemma EachRangeIsFirst(str: string, matched: set<nat>, ranges: seq<Range>, k: nat)
    requires AllAlnum(str, matched) && Marks(str, matched, ranges) && k < |ranges|
    ensures FirstFrom(str, matched, Before(ranges, k), ranges[k])
  {
    var r := ranges[k];
    assert Anchored(str, matched, r);
    assert k > 0 ==> ranges[k - 1].hi < ranges[k].lo;
    forall p | p in matched && Before(ranges, k) <= p
      ensures r.lo <= p && (p < r.hi || UnmatchedBetween(str, matched, r.hi, p))
    {
      var j := LaterRange(str, matched, ranges, k, p);
      if j > k {
        assert UnmatchedBetween(str, matched, ranges[k].hi, ranges[j].lo);
      }
    }
    RangeIsMatched(str, matched, ranges, k);
  }

  lemma RangeIsMatched(str: string, matched: set<nat>, ranges: seq<Range>, k: nat)
    requires Marks(str, matched, ranges) && k < |ranges|
    ensures forall p :: ranges[k].lo <= p < ranges[k].hi && p < |str| && IsAlnum(str[p]) ==> p in matched
  {
    forall p | ranges[k].lo <= p < ranges[k].hi && p < |str| && IsAlnum(str[p]) ensures p in matched {
      assert ranges[k] in ranges;
      assert InRanges(ranges, p);
    }
  }

  lemma FirstFromNotLonger(str: string, matched: set<nat>, lo: nat, r: Range, q: Range)
    requires FirstFrom(str, matched, lo, r) && FirstFrom(str, matched, lo, q)
    ensures r.lo <= q.lo && (r.lo == q.lo ==> r.hi <= q.hi)
  {
    assert r.hi - 1 in matched;
  }

  lemma SameNext(str: string, matched: set<nat>, a: seq<Range>, b: seq<Range>, k: nat)
    requires AllAlnum(str, matched) && Marks(str, matched, a) && Marks(str, matched, b)
    requires k < |a| && k < |b| && Before(a, k) == Before(b, k)
    ensures a[k] == b[k]
  {
    EachRangeIsFirst(str, matched, a, k);
    EachRangeIsFirst(str, matched, b, k);
    FirstFromNotLonger(str, matched, Before(a, k), a[k], b[k]);
    FirstFromNotLonger(str, matched, Before(a, k), b[k], a[k]);
  }

  lemma {:induction false} PrefixesAgree(a: seq<Range>, b: seq<Range>, k: nat)
    requires k <= |a| && k <= |b|
    requires forall i :: 0 <= i < k && Before(a, i) == Before(b, i) ==> a[i] == b[i]
    ensures a[..k] == b[..k]
  {
    if k > 0 {
      PrefixesAgree(a, b, k - 1);
      SameBefore(a, b, k - 1);
      assert a[..k] == a[..k - 1] + [a[k - 1]] && b[..k] == b[..k - 1] + [b[k - 1]];
    }
  }

  lemma SameRangesUpTo(str: string, matched: set<nat>, a: seq<Range>, b: seq<Range>, k: nat)
    requires AllAlnum(str, matched) && Marks(str, matched, a) && Marks(str, matched, b)
    requires k <= |a| && k <= |b|
    ensures a[..k] == b[..k]
  {
    forall i | 0 <= i < k && Before(a, i) == Before(b, i) ensures a[i] == b[i] {
      SameNext(str, matched, a, b, i);
    }
    PrefixesAgree(a, b, k);
  }

  lemma SameBefore(a: seq<Range>, b: seq<Range>, k: nat)
    requires k <= |a| && k <= |b| && a[..k] == b[..k]
    ensures Before(a, k) == Before(b, k)
  {
    assert k > 0 ==> a[k - 1] == a[..k][k - 1] && b[k - 1] == b[..k][k - 1];
  }

  lemma NotShorter(str: string, matched: set<nat>, a: seq<Range>, b: seq<Range>)
    requires AllAlnum(str, matched) && Marks(str, matched, a) && Marks(str, matched, b)
    ensures |b| <= |a|
  {
    if |a| < |b| {
      SameRangesUpTo(str, matched, a, b, |a|);
      SameBefore(a, b, |a|);
      EachRangeIsFirst(str, matched, b, |a|);
      var j := LaterRange(str, matched, a, |a|, b[|a|].lo);
    }
  }

  /** Only one list of ranges marks a given set of matched letters and digits. */
  lemma MarksAreUnique(str: string, matched: set<nat>, a: seq<Range>, b: seq<Range>)
    requires AllAlnum(str, matched) && Marks(str, matched, a) && Marks(str, matched, b)
    ensures a == b
  {
    NotShorter(str, matched, a, b);
    NotShorter(str, matched, b, a);
    SameRangesUpTo(str, matched, a, b, |a|);
    assert a[..|a|] == a && b[..|b|] == b;
  }
}
