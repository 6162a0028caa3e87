/** The tightest-subsequence search (site/js/config-search.js, `subsequenceMatch`). */
module SubsequenceMatching {
  import opened Basics
  import opened SearchText

  /** The length from which a token is looked for as a subsequence at all. */
  const MIN_SUBSEQUENCE: nat := 3

  /** `String.prototype.indexOf` for one character. */
  function IndexOf(text: string, c: char, from: nat): (r: int)
    ensures -1 <= r < |text|
    ensures r >= 0 ==> from <= r && text[r] == c
    ensures forall k :: from <= k < |text| && (r == -1 || k < r) ==> text[k] != c
    decreases |text| - from
  {
    if from >= |text| then -1
    else if text[from] == c then from
    else IndexOf(text, c, from + 1)
  }

  function Width(ix: seq<nat>): int
    requires ix != []
  {
    (ix[|ix| - 1] as int) - ix[0] + 1
  }

  /** No embedding that starts at `ix[0]` or later comes before `ix` in any position. */
  ghost predicate Leftmost(token: string, text: string, ix: seq<nat>) {
    forall e, i :: Embeds(token, text, e) && ix != [] && e != [] && ix[0] <= e[0] && 0 <= i < |ix| && i < |e|
                   ==> ix[i] <= e[i]
  }

  /** `best` is the tightest acceptable embedding among those that start before `bound`, the
      first of them, and as far left as it can be. */
  ghost predicate Tightest(token: string, text: string, bound: int, best: Option<seq<nat>>) {
    && (best.Some? ==>
          && best.value != []
          && Embeds(token, text, best.value)
          && best.value[0] < bound
          && Width(best.value) <= 2 * |token|
          && Leftmost(token, text, best.value))
    && (forall e :: Embeds(token, text, e) && e != [] && e[0] < bound && Width(e) <= 2 * |token| ==>
          && best.Some?
          && best.value != []
          && Width(best.value) <= Width(e)
          && (Width(best.value) == Width(e) ==> best.value[0] <= e[0]))
  }

  /** `found` places a prefix of the token from `start` on, as far left as any embedding that
      starts there or later. */
  ghost predicate GreedyPrefix(token: string, text: string, start: nat, found: seq<nat>) {
    && 1 <= |found| <= |token| && found[0] == start
    && Embeds(token[..|found|], text, found)
    && forall e, k :: Embeds(token, text, e) && start <= e[0] && 0 <= k < |found| ==> found[k] <= e[k]
  }

  lemma NextIsFurther(token: string, text: string, start: nat, found: seq<nat>, e: seq<nat>)
    requires GreedyPrefix(token, text, start, found) && |found| < |token|
    requires Embeds(token, text, e) && start <= e[0]
    ensures found[|found| - 1] < e[|found|] < |text| && text[e[|found|]] == token[|found|]
  {
    assert found[|found| - 1] <= e[|found| - 1];
  }

  lemma GreedyExtends(token: string, text: string, start: nat, found: seq<nat>, at: nat)
    requires GreedyPrefix(token, text, start, found) && |found| < |token|
    requires at == IndexOf(text, token[|found|], found[|found| - 1] + 1)
    ensures GreedyPrefix(token, text, start, found + [at])
  {
    forall e | Embeds(token, text, e) && start <= e[0] ensures at <= e[|found|] {
      NextIsFurther(token, text, start, found, e);
    }
  }

  lemma GreedyStuck(token: string, text: string, start: nat, found: seq<nat>)
    requires GreedyPrefix(token, text, start, found) && |found| < |token|
    requires IndexOf(text, token[|found|], found[|found| - 1] + 1) == -1
    ensures forall e :: Embeds(token, text, e) ==> e[0] < start
  {
    forall e | Embeds(token, text, e) ensures e[0] < start {
      if start <= e[0] {
        NextIsFurther(token, text, start, found, e);
      }
    }
  }

  /** Place the rest of the token greedily after `start`: either this is as far left as any
      embedding from `start` on can be, or there is none. */
  method Greedy(token: string, text: string, start: nat) returns (hits: Option<seq<nat>>)
    requires token != [] && start < |text| && text[start] == token[0]
    ensures hits.Some? ==> hits.value != [] && hits.value[0] == start
                           && Embeds(token, text, hits.value) && Leftmost(token, text, hits.value)
    ensures hits.None? ==> forall e :: Embeds(token, text, e) ==> e[0] < start
  {
    var found: seq<nat> := [start];
    var at: int := start + 1;
    for i := 1 to |token|
      invariant |found| == i && at == found[i - 1] + 1
      invariant GreedyPrefix(token, text, start, found)
    {
      at := IndexOf(text, token[i], at);
      if at == -1 {
        GreedyStuck(token, text, start, found);
        return None;
      }
      GreedyExtends(token, text, start, found, at);
      found := found + [at];
      at := at + 1;
    }
    assert token[..|token|] == token;
    hits := Some(found);
  }

  lemma StartsAtFirstCharacter(token: string, text: string, e: seq<nat>, from: nat, next: int)
    requires token != [] && Embeds(token, text, e)
    requires next == IndexOf(text, token[0], from)
    ensures e[0] < from || 0 <= next <= e[0]
  {
  }

  /** Widening the bound past a start whose greedy embedding is not an improvement. */
  lemma KeepBest(token: string, text: string, start: nat, bound: int, best: Option<seq<nat>>, hits: seq<nat>)
    requires token != [] && Tightest(token, text, start, best)
    requires hits != [] && hits[0] == start && Embeds(token, text, hits) && Leftmost(token, text, hits)
    requires Width(hits) > 2 * |token| || (best.Some? && Width(best.value) <= Width(hits))
    requires start <= bound && forall e :: Embeds(token, text, e) && e[0] < bound ==> e[0] <= start
    ensures Tightest(token, text, bound, best)
  {
    forall e | Embeds(token, text, e) && e[0] == start ensures Width(hits) <= Width(e) {
      assert hits[|hits| - 1] <= e[|hits| - 1];
    }
  }

  lemma TakeHits(token: string, text: string, start: nat, bound: int, best: Option<seq<nat>>, hits: seq<nat>)
    requires token != [] && Tightest(token, text, start, best)
    requires hits != [] && hits[0] == start && Embeds(token, text, hits) && Leftmost(token, text, hits)
    requires Width(hits) <= 2 * |token| && (best.Some? ==> Width(hits) < Width(best.value))
    requires start < bound && forall e :: Embeds(token, text, e) && e[0] < bound ==> e[0] <= start
    ensures Tightest(token, text, bound, Some(hits))
  {
    forall e | Embeds(token, text, e) && e[0] == start ensures Width(hits) <= Width(e) {
      assert hits[|hits| - 1] <= e[|hits| - 1];
    }
  }

  /** `subsequenceMatch` is globally optimal: among all embeddings of the token no wider than
      twice its length it returns the tightest, the first of equals; it returns nothing exactly
      when there is none. Giving up at the first start that cannot be completed loses nothing. */
  method SubsequenceMatch(token: string, text: string) returns (best: Option<seq<nat>>)
    ensures |token| < MIN_SUBSEQUENCE ==> best.None?
    ensures |token| >= MIN_SUBSEQUENCE ==> Tightest(token, text, |text|, best)
    ensures |token| >= MIN_SUBSEQUENCE ==>
              (best.None? <==> forall e :: Embeds(token, text, e) ==> Width(e) > 2 * |token|)
    ensures best.Some? ==> Embeds(token, text, best.value)
    ensures best.Some? ==> forall e :: Embeds(token, text, e) ==> Width(best.value) <= Width(e)
  {
    best := None;
    if |token| < MIN_SUBSEQUENCE {
      return;
    }
    var start := IndexOf(text, token[0], 0);
    while start != -1
      invariant -1 <= start < |text|
      invariant start != -1 ==> text[start] == token[0]
      invariant Tightest(token, text, if start == -1 then |text| else start, best)
      decreases if start == -1 then 0 else |text| - start
    {
      var hits := Greedy(token, text, start);
      if hits.None? {
        return;
      }
      var width := Width(hits.value);
      var next := IndexOf(text, token[0], start + 1);
      ghost var bound := if next == -1 then |text| else next;
      forall e | Embeds(token, text, e) && e[0] < bound ensures e[0] <= start {
        StartsAtFirstCharacter(token, text, e, start + 1, next);
      }
      if width <= |token| * 2 && (best.None? || width < Width(best.value)) {
        TakeHits(token, text, start, bound, best, hits.value);
        best := hits;
      } else {
        KeepBest(token, text, start, bound, best, hits.value);
      }
      start := next;
    }
  }
}
