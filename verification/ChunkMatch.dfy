/** The memoised word-prefix matcher (site/js/config-search.js, `chunkMatch`). */
module ChunkMatching {
  import opened Basics
  import opened SearchText

  /** What the matcher relies on: words start inside the text, in ascending order. */
  ghost predicate WordsOk(name: Name) {
    Increasing(name.starts) && forall w :: 0 <= w < |name.starts| ==> name.starts[w] < |name.text|
  }

  lemma PreparedWordsOk(raw: string, name: Name)
    requires Prepared(raw, name)
    ensures WordsOk(name)
  {
    forall w | 0 <= w < |name.starts| ensures name.starts[w] < |name.text| {
      assert name.starts[w] in name.starts;
    }
  }

  function WordEnd(name: Name, w: nat): nat
    requires w < |name.starts|
  {
    if w + 1 < |name.starts| then name.starts[w + 1] else |name.text|
  }

  // ---- What is being looked for ---------------------------------------------------

  /** Take the first `len` characters of word `word`. */
  datatype Chunk = Chunk(word: nat, len: nat)

  ghost predicate ChunkFits(token: string, name: Name, pos: nat, c: Chunk) {
    && c.word < |name.starts|
    && 1 <= c.len
    && pos + c.len <= |token|
    && name.starts[c.word] + c.len <= WordEnd(name, c.word)
    && name.starts[c.word] + c.len <= |name.text|
    && name.text[name.starts[c.word]..name.starts[c.word] + c.len] == token[pos..pos + c.len]
  }

  /** The rest of the token, from `pos`, is cut into non-empty prefixes of distinct words, in
      order, none before `word`. */
  ghost predicate Splits(token: string, name: Name, pos: nat, word: nat, cs: seq<Chunk>)
    decreases |cs|
  {
    if cs == [] then pos == |token|
    else
      && word <= cs[0].word
      && ChunkFits(token, name, pos, cs[0])
      && Splits(token, name, pos + cs[0].len, cs[0].word + 1, cs[1..])
  }

  function Span(begin: nat, len: nat): (r: seq<nat>)
    ensures |r| == len && forall i :: 0 <= i < len ==> r[i] == begin + i
  {
    seq(len, i requires 0 <= i < len => begin + i)
  }

  function Indices(name: Name, cs: seq<Chunk>): seq<nat> {
    if cs == [] then []
    else (if cs[0].word < |name.starts| then Span(name.starts[cs[0].word], cs[0].len) else [])
         + Indices(name, cs[1..])
  }

  lemma SpanEmbeds(piece: string, text: string, begin: nat)
    requires begin + |piece| <= |text| && text[begin..begin + |piece|] == piece
    ensures Embeds(piece, text, Span(begin, |piece|))
  {
    forall i | 0 <= i < |piece| ensures text[Span(begin, |piece|)[i]] == piece[i] {
      assert text[begin..begin + |piece|][i] == text[begin + i];
    }
  }

  lemma SpanAndRestEmbed(piece: string, after: string, text: string, begin: nat, rest: seq<nat>)
    requires begin + |piece| <= |text| && text[begin..begin + |piece|] == piece
    requires Embeds(after, text, rest)
    requires forall j :: 0 <= j < |rest| ==> begin + |piece| <= rest[j]
    ensures Embeds(piece + after, text, Span(begin, |piece|) + rest)
  {
    SpanEmbeds(piece, text, begin);
    EmbedsConcat(piece, after, text, Span(begin, |piece|), rest);
  }

  ghost predicate RightOf(name: Name, word: nat, ix: seq<nat>) {
    forall i :: 0 <= i < |ix| ==> word < |name.starts| && name.starts[word] <= ix[i]
  }

  lemma ChunkThenRest(token: string, name: Name, pos: nat, word: nat, c: Chunk, rest: seq<nat>)
    requires WordsOk(name) && word <= c.word && ChunkFits(token, name, pos, c)
    requires Embeds(token[pos + c.len..], name.text, rest) && RightOf(name, c.word + 1, rest)
    ensures Embeds(token[pos..], name.text, Span(name.starts[c.word], c.len) + rest)
    ensures RightOf(name, word, Span(name.starts[c.word], c.len) + rest)
  {
    var begin := name.starts[c.word];
    assert forall j :: 0 <= j < |rest| ==> begin + c.len <= rest[j];
    SpanAndRestEmbed(token[pos..pos + c.len], token[pos + c.len..], name.text, begin, rest);
    assert token[pos..pos + c.len] + token[pos + c.len..] == token[pos..];
    assert name.starts[word] <= begin;
  }

  /** A split spells the token with strictly increasing indices. */
  lemma {:induction false} SplitSpells(token: string, name: Name, pos: nat, word: nat, cs: seq<Chunk>)
    requires WordsOk(name) && pos <= |token| && Splits(token, name, pos, word, cs)
    ensures Embeds(token[pos..], name.text, Indices(name, cs))
    ensures RightOf(name, word, Indices(name, cs))
    decreases |cs|
  {
    if cs != [] {
      SplitSpells(token, name, pos + cs[0].len, cs[0].word + 1, cs[1..]);
      ChunkThenRest(token, name, pos, word, cs[0], Indices(name, cs[1..]));
    }
  }

  // ---- The plain recursion --------------------------------------------------------

  /** How far word text and token agree, up to `end`. */
  function AgreeLen(token: string, text: string, pos: nat, at: nat, end: nat): (r: nat)
    requires at <= end <= |text| && pos <= |token|
    ensures pos + r <= |token| && at + r <= end
    decreases |token| - pos
  {
    if pos < |token| && at < end && text[at] == token[pos] then 1 + AgreeLen(token, text, pos + 1, at + 1, end)
    else 0
  }

  lemma {:induction false} AgreeLenExact(token: string, text: string, pos: nat, at: nat, end: nat)
    requires at <= end <= |text| && pos <= |token|
    ensures var r := AgreeLen(token, text, pos, at, end);
            && text[at..at + r] == token[pos..pos + r]
            && (pos + r < |token| && at + r < end ==> text[at + r] != token[pos + r])
    decreases |token| - pos
  {
    if pos < |token| && at < end && text[at] == token[pos] {
      AgreeLenExact(token, text, pos + 1, at + 1, end);
      var r := AgreeLen(token, text, pos + 1, at + 1, end);
      assert text[at..at + 1 + r] == [text[at]] + text[at + 1..at + 1 + r];
      assert token[pos..pos + 1 + r] == [token[pos]] + token[pos + 1..pos + 1 + r];
    }
  }

  function PrefixLen(token: string, name: Name, pos: nat, w: nat): nat
    requires WordsOk(name) && w < |name.starts| && pos <= |token|
  {
    AgreeLen(token, name.text, pos, name.starts[w], WordEnd(name, w))
  }

  function Plain(token: string, name: Name, pos: nat, word: nat): Option<seq<nat>>
    requires WordsOk(name) && pos <= |token| && word <= |name.starts|
    decreases |token| - pos, |name.starts| - word, 2, 0
  {
    if pos == |token| then Some([]) else TryWords(token, name, pos, word)
  }

  function TryWords(token: string, name: Name, pos: nat, w: nat): Option<seq<nat>>
    requires WordsOk(name) && pos < |token| && w <= |name.starts|
    decreases |token| - pos, |name.starts| - w, 1, 0
  {
    if w == |name.starts| then None
    else
      match TryTakes(token, name, pos, w, PrefixLen(token, name, pos, w))
      case Some(ix) => Some(ix)
      case None => TryWords(token, name, pos, w + 1)
  }

  function TryTakes(token: string, name: Name, pos: nat, w: nat, take: nat): Option<seq<nat>>
    requires WordsOk(name) && pos < |token| && w < |name.starts| && take <= PrefixLen(token, name, pos, w)
    decreases |token| - pos, |name.starts| - w, 0, take
  {
    if take == 0 then None
    else
      match Plain(token, name, pos + take, w + 1)
      case Some(rest) => Some(Span(name.starts[w], take) + rest)
      case None => TryTakes(token, name, pos, w, take - 1)
  }

  ghost predicate Splittable(token: string, name: Name, pos: nat, word: nat) {
    exists cs :: Splits(token, name, pos, word, cs)
  }

  ghost predicate SplittableAfter(token: string, name: Name, pos: nat, w: nat, len: nat) {
    Splittable(token, name, pos + len, w + 1)
  }

  /** The answer is right for this subproblem: indices of a split, or nothing when there is
      none. */
  ghost predicate Right(token: string, name: Name, pos: nat, word: nat, r: Option<seq<nat>>) {
    match r
    case Some(ix) => exists cs :: Splits(token, name, pos, word, cs) && ix == Indices(name, cs)
    case None => !Splittable(token, name, pos, word)
  }

  lemma AgreeingPrefixFits(token: string, name: Name, pos: nat, c: Chunk)
    requires WordsOk(name) && pos <= |token|
    ensures ChunkFits(token, name, pos, c)
            <==> c.word < |name.starts| && 1 <= c.len <= PrefixLen(token, name, pos, c.word)
  {
    if c.word < |name.starts| {
      var begin, end := name.starts[c.word], WordEnd(name, c.word);
      var len := PrefixLen(token, name, pos, c.word);
      assert begin <= end <= |name.text|;
      AgreeLenExact(token, name.text, pos, begin, end);
      if ChunkFits(token, name, pos, c) && c.len > len {
        assert false;
      }
      if 1 <= c.len <= len {
        assert name.text[begin..begin + c.len] == name.text[begin..begin + len][..c.len];
        assert token[pos..pos + c.len] == token[pos..pos + len][..c.len];
      }
    }
  }

  lemma PrependChunk(token: string, name: Name, pos: nat, w: nat, take: nat, cs: seq<Chunk>)
    requires WordsOk(name) && pos < |token| && w < |name.starts| && 1 <= take <= PrefixLen(token, name, pos, w)
    requires Splits(token, name, pos + take, w + 1, cs)
    ensures Splits(token, name, pos, w, [Chunk(w, take)] + cs)
    ensures Indices(name, [Chunk(w, take)] + cs) == Span(name.starts[w], take) + Indices(name, cs)
  {
    var all := [Chunk(w, take)] + cs;
    AgreeingPrefixFits(token, name, pos, Chunk(w, take));
    assert all[1..] == cs;
  }

  lemma {:induction false} PlainIsRight(token: string, name: Name, pos: nat, word: nat)
    requires WordsOk(name) && pos <= |token| && word <= |name.starts|
    ensures Right(token, name, pos, word, Plain(token, name, pos, word))
    decreases |token| - pos, |name.starts| - word, 2, 0
  {
    if pos == |token| {
      assert Splits(token, name, pos, word, []);
      assert Indices(name, []) == [];
    } else {
      TryWordsIsRight(token, name, pos, word);
    }
  }

  lemma {:induction false} TryWordsIsRight(token: string, name: Name, pos: nat, w: nat)
    requires WordsOk(name) && pos < |token| && w <= |name.starts|
    ensures Right(token, name, pos, w, TryWords(token, name, pos, w))
    decreases |token| - pos, |name.starts| - w, 1, 0
  {
    if w < |name.starts| {
      var len := PrefixLen(token, name, pos, w);
      TryTakesIsRight(token, name, pos, w, len);
      if TryTakes(token, name, pos, w, len).None? {
        TryWordsIsRight(token, name, pos, w + 1);
        forall cs: seq<Chunk> ensures Splits(token, name, pos, w, cs) <==> Splits(token, name, pos, w + 1, cs) {
          if Splits(token, name, pos, w, cs) && cs != [] && cs[0].word == w {
            AgreeingPrefixFits(token, name, pos, cs[0]);
            assert Splits(token, name, pos + cs[0].len, w + 1, cs[1..]);
            assert SplittableAfter(token, name, pos, w, cs[0].len);
          }
        }
      }
    }
  }

  /** With `take` characters or fewer of word `w` first: a split if there is one. */
  ghost predicate TakesRight(token: string, name: Name, pos: nat, w: nat, take: nat, r: Option<seq<nat>>) {
    match r
    case Some(ix) => exists cs :: Splits(token, name, pos, w, cs) && ix == Indices(name, cs)
    case None => forall len :: 1 <= len <= take ==> !SplittableAfter(token, name, pos, w, len)
  }

  lemma TakeIsRight(token: string, name: Name, pos: nat, w: nat, take: nat, rest: seq<nat>)
    requires WordsOk(name) && pos < |token| && w < |name.starts| && 1 <= take <= PrefixLen(token, name, pos, w)
    requires Right(token, name, pos + take, w + 1, Some(rest))
    ensures TakesRight(token, name, pos, w, take, Some(Span(name.starts[w], take) + rest))
  {
    var cs :| Splits(token, name, pos + take, w + 1, cs) && rest == Indices(name, cs);
    PrependChunk(token, name, pos, w, take, cs);
  }

  lemma OneMoreTake(token: string, name: Name, pos: nat, w: nat, take: nat, r: Option<seq<nat>>)
    requires take > 0 && TakesRight(token, name, pos, w, take - 1, r)
    requires !Splittable(token, name, pos + take, w + 1)
    ensures TakesRight(token, name, pos, w, take, r)
  {
    assert !SplittableAfter(token, name, pos, w, take);
  }

  lemma {:induction false} TryTakesIsRight(token: string, name: Name, pos: nat, w: nat, take: nat)
    requires WordsOk(name) && pos < |token| && w < |name.starts| && take <= PrefixLen(token, name, pos, w)
    ensures TakesRight(token, name, pos, w, take, TryTakes(token, name, pos, w, take))
    decreases |token| - pos, |name.starts| - w, 0, take
  {
    if take > 0 {
      PlainIsRight(token, name, pos + take, w + 1);
      var after := Plain(token, name, pos + take, w + 1);
      if after.Some? {
        TakeIsRight(token, name, pos, w, take, after.value);
      } else {
        TryTakesIsRight(token, name, pos, w, take - 1);
        OneMoreTake(token, name, pos, w, take, TryTakes(token, name, pos, w, take - 1));
      }
    }
  }

  // ---- The memoised search ----------------------------------------------------------

  function Key(words: nat, pos: nat, word: nat): nat {
    pos * (words + 1) + word
  }

  /** One map serves all subproblems: the key determines both of its parts. */
  lemma KeyIsInjective(words: nat, pos: nat, word: nat, pos': nat, word': nat)
    requires word <= words && word' <= words
    requires Key(words, pos, word) == Key(words, pos', word')
    ensures pos == pos' && word == word'
  {
    if pos < pos' {
      KeyGap(words, pos, word, pos');
    } else if pos' < pos {
      KeyGap(words, pos', word', pos);
    }
  }

  lemma KeyGap(words: nat, pos: nat, word: nat, pos': nat)
    requires word <= words && pos < pos'
    ensures Key(words, pos, word) < Key(words, pos', 0)
  {
    assert (pos + 1) * (words + 1) <= pos' * (words + 1);
    assert (pos + 1) * (words + 1) == pos * (words + 1) + (words + 1);
  }

  class ChunkMatcher {
    const token: string
    const name: Name
    var memo: map<nat, Option<seq<nat>>>

    constructor (token: string, name: Name)
      requires WordsOk(name)
      ensures this.token == token && this.name == name && memo == map[] && Valid()
    {
      this.token := token;
      this.name := name;
      memo := map[];
    }

    /** Every remembered answer is the plain recursion's. */
    ghost predicate Valid()
      reads this
    {
      && WordsOk(name)
      && forall pos: nat, word: nat :: pos <= |token| && word <= |name.starts| && Key(|name.starts|, pos, word) in memo
           ==> memo[Key(|name.starts|, pos, word)] == Plain(token, name, pos, word)
    }

    method Walk(pos: nat, word: nat) returns (r: Option<seq<nat>>)
      requires Valid() && pos <= |token| && word <= |name.starts|
      modifies this
      ensures Valid() && r == Plain(token, name, pos, word)
      decreases |token| - pos, 2
    {
      var key := Key(|name.starts|, pos, word);
      if key !in memo {
        var found := Step(pos, word);
        memo := memo[key := found];
        forall p: nat, w: nat | p <= |token| && w <= |name.starts| && Key(|name.starts|, p, w) == key
          ensures p == pos && w == word
        {
          KeyIsInjective(|name.starts|, p, w, pos, word);
        }
      }
      r := memo[key];
    }

    method Step(pos: nat, word: nat) returns (r: Option<seq<nat>>)
      requires Valid() && pos <= |token| && word <= |name.starts|
      modifies this
      ensures Valid() && r == Plain(token, name, pos, word)
      decreases |token| - pos, 1
    {
      if pos == |token| {
        return Some([]);
      }
      for w := word to |name.starts|
        invariant Valid()
        invariant TryWords(token, name, pos, word) == TryWords(token, name, pos, w)
      {
        var len := Agreement(pos, w);
        r := LongestFirst(pos, w, len);
        if r.Some? {
          return;
        }
      }
      r := None;
    }

    /** How many characters of word `w` the token continues with. */
    method Agreement(pos: nat, w: nat) returns (len: nat)
      requires WordsOk(name) && pos < |token| && w < |name.starts|
      ensures len == PrefixLen(token, name, pos, w)
    {
      var begin := name.starts[w];
      len := 0;
      while pos + len < |token| && begin + len < WordEnd(name, w) && name.text[begin + len] == token[pos + len]
        invariant pos + len <= |token| && begin + len <= WordEnd(name, w)
        invariant PrefixLen(token, name, pos, w)
                  == len + AgreeLen(token, name.text, pos + len, begin + len, WordEnd(name, w))
      {
        len := len + 1;
      }
    }

    /** Take as much of the word as possible first, then less. */
    method LongestFirst(pos: nat, w: nat, len: nat) returns (r: Option<seq<nat>>)
      requires Valid() && pos < |token| && w < |name.starts| && len == PrefixLen(token, name, pos, w)
      modifies this
      ensures Valid() && r == TryTakes(token, name, pos, w, len)
      decreases |token| - pos, 0
    {
      var take: nat := len;
      while take >= 1
        invariant Valid() && take <= len
        invariant TryTakes(token, name, pos, w, len) == TryTakes(token, name, pos, w, take)
      {
        var rest := Walk(pos + take, w + 1);
        if rest.Some? {
          return Some(Span(name.starts[w], take) + rest.value);
        }
        take := take - 1;
      }
      r := None;
    }
  }

  /** `chunkMatch` is sound and complete: it returns the indices of a split of the token into
      word prefixes, strictly increasing and spelling the token, exactly when a split exists. */
  method ChunkMatch(token: string, name: Name) returns (r: Option<seq<nat>>)
    requires WordsOk(name)
    ensures r == Plain(token, name, 0, 0)
    ensures r.Some? <==> Splittable(token, name, 0, 0)
    ensures r.Some? ==> Embeds(token, name.text, r.value)
    ensures r.Some? ==> exists cs :: Splits(token, name, 0, 0, cs) && r.value == Indices(name, cs)
  {
    var matcher := new ChunkMatcher(token, name);
    r := matcher.Walk(0, 0);
    PlainIsRight(token, name, 0, 0);
    if r.Some? {
      ghost var cs :| Splits(token, name, 0, 0, cs) && r.value == Indices(name, cs);
      SplitSpells(token, name, 0, 0, cs);
      assert token[0..] == token;
    }
  }
}
