/** Compacted identifiers and query tokens (site/js/config-search.js). A character is one UTF-16
    unit of the original; only A-Z have a lowercase form here. */
module SearchText {
  const MAX_QUERY: nat := 100

  predicate IsCompact(c: char) {
    'a' <= c <= 'z' || '0' <= c <= '9'
  }

  /** A character that compaction keeps: [a-z0-9], in either case. */
  predicate IsAlnum(c: char) {
    IsCompact(c) || 'A' <= c <= 'Z'
  }

  function Lower(c: char): (r: char)
    ensures IsAlnum(c) <==> IsCompact(r)
  {
    if 'A' <= c <= 'Z' then (c as int + 32) as char else c
  }

  /** Whitespace as a regular expression's \s reads it. */
  predicate IsSpace(c: char) {
    || c in {' ', '\t', '\n', '\r', '\U{000B}', '\U{000C}', '\U{00A0}', '\U{1680}', '\U{2028}', '\U{2029}'}
    || c in {'\U{202F}', '\U{205F}', '\U{3000}', '\U{FEFF}'}
    || '\U{2000}' <= c <= '\U{200A}'
  }

  ghost predicate Increasing(s: seq<nat>) {
    forall i, j :: 0 <= i < j < |s| ==> s[i] < s[j]
  }

  // ---- Tokens -------------------------------------------------------------------

  function Compact(s: string): string {
    if s == [] then []
    else (if IsAlnum(s[0]) then [Lower(s[0])] else []) + Compact(s[1..])
  }

  /** The pieces between whitespace characters, the first one continuing `piece`. */
  function Split(s: string, piece: string): seq<string> {
    if s == [] then [piece]
    else if IsSpace(s[0]) then [piece] + Split(s[1..], [])
    else Split(s[1..], piece + [s[0]])
  }

  function CompactAll(pieces: seq<string>): seq<string> {
    if pieces == [] then []
    else (if Compact(pieces[0]) == [] then [] else [Compact(pieces[0])]) + CompactAll(pieces[1..])
  }

  /** The part of the query that is looked at. */
  function Clip(query: string): string {
    if |query| > MAX_QUERY then query[..MAX_QUERY] else query
  }

  function Tokenize(query: string): seq<string> {
    CompactAll(Split(Clip(query), []))
  }

  function Join(parts: seq<string>): string {
    if parts == [] then [] else parts[0] + Join(parts[1..])
  }

  ghost predicate IsToken(t: string) {
    t != [] && forall c :: c in t ==> IsCompact(c)
  }

  lemma {:induction false} CompactChars(s: string)
    ensures forall c :: c in Compact(s) ==> IsCompact(c)
  {
    if s != [] {
      CompactChars(s[1..]);
    }
  }

  lemma {:induction false} CompactConcat(a: string, b: string)
    ensures Compact(a + b) == Compact(a) + Compact(b)
  {
    if a == [] {
      assert a + b == b;
    } else {
      CompactConcat(a[1..], b);
      assert (a + b)[1..] == a[1..] + b;
      var first := if IsAlnum(a[0]) then [Lower(a[0])] else [];
      assert Compact(a + b) == first + (Compact(a[1..]) + Compact(b));
      assert Compact(a) == first + Compact(a[1..]);
    }
  }

  lemma {:induction false} CompactKeepsAlnum(s: string, p: nat)
    requires p < |s| && IsAlnum(s[p])
    ensures Compact(s) != []
  {
    if p > 0 {
      CompactKeepsAlnum(s[1..], p - 1);
    }
  }

  lemma {:induction false} CompactAllTokens(pieces: seq<string>)
    ensures forall t :: t in CompactAll(pieces) ==> IsToken(t)
  {
    if pieces != [] {
      CompactAllTokens(pieces[1..]);
      CompactChars(pieces[0]);
    }
  }

  lemma SpaceIsDropped(c: char)
    requires IsSpace(c)
    ensures !IsAlnum(c)
  {
  }

  lemma JoinCompactCons(piece: string, rest: seq<string>)
    ensures Join(CompactAll([piece] + rest)) == Compact(piece) + Join(CompactAll(rest))
  {
    var c := Compact(piece);
    assert ([piece] + rest)[1..] == rest;
    if c != [] {
      assert ([c] + CompactAll(rest))[1..] == CompactAll(rest);
    } else {
      assert CompactAll([piece] + rest) == CompactAll(rest);
    }
  }

  lemma {:induction false} SplitLosesOnlySpace(s: string, piece: string)
    ensures Join(CompactAll(Split(s, piece))) == Compact(piece) + Compact(s)
  {
    if s == [] {
      JoinCompactCons(piece, []);
      assert [piece] + [] == [piece];
    } else if IsSpace(s[0]) {
      SpaceIsDropped(s[0]);
      SplitLosesOnlySpace(s[1..], []);
      JoinCompactCons(piece, Split(s[1..], []));
      assert Compact([]) == [];
    } else {
      SplitLosesOnlySpace(s[1..], piece + [s[0]]);
      CompactConcat(piece, [s[0]]);
      assert [s[0]] + s[1..] == s;
      CompactConcat([s[0]], s[1..]);
    }
  }

  /** Tokens are non-empty and compact, and splitting loses nothing that compaction keeps: joined
      together they are the compacted query. */
  lemma TokenizeJoins(query: string)
    ensures forall t :: t in Tokenize(query) ==> IsToken(t)
    ensures Join(Tokenize(query)) == Compact(Clip(query))
  {
    CompactAllTokens(Split(Clip(query), []));
    SplitLosesOnlySpace(Clip(query), []);
  }

  /** A stretch of the query, from `lo` up to, not including, `hi`. */
  datatype Stretch = Stretch(lo: nat, hi: nat)

  ghost predicate SpaceFree(q: string, lo: nat, hi: nat)
    requires lo <= hi <= |q|
  {
    forall p :: lo <= p < hi ==> !IsSpace(q[p])
  }

  /** Without whitespace, and not extensible without it. */
  ghost predicate MaximalRun(q: string, r: Stretch) {
    && r.lo < r.hi <= |q| && SpaceFree(q, r.lo, r.hi)
    && (r.lo == 0 || IsSpace(q[r.lo - 1])) && (r.hi == |q| || IsSpace(q[r.hi]))
  }

  /** The tokens are the compactions of the maximal whitespace-free runs from `from` on that have a
      letter or digit, in order. */
  ghost predicate CutAt(q: string, from: nat, tokens: seq<string>, runs: seq<Stretch>) {
    && |runs| == |tokens|
    && (forall i :: 0 <= i < |runs| ==> from <= runs[i].lo && IsCut(q, tokens[i], runs[i]))
    && (forall i, j :: 0 <= i < j < |runs| ==> runs[i].hi < runs[j].lo)
    && (forall p :: from <= p < |q| && IsAlnum(q[p]) ==> InRun(runs, p))
  }

  ghost predicate IsCut(q: string, token: string, r: Stretch) {
    MaximalRun(q, r) && token == Compact(q[r.lo..r.hi])
  }

  ghost predicate InRun(runs: seq<Stretch>, p: nat) {
    exists r :: r in runs && r.lo <= p < r.hi
  }

  lemma {:induction false} CompactEmpty(s: string)
    requires Compact(s) == []
    ensures forall p :: 0 <= p < |s| ==> !IsAlnum(s[p])
  {
    if s != [] {
      CompactEmpty(s[1..]);
      assert forall p :: 1 <= p < |s| ==> s[p] == s[1..][p - 1];
    }
  }

  ghost predicate RunEnds(q: string, start: nat, p: nat) {
    && start <= p <= |q| && SpaceFree(q, start, p)
    && (start == 0 || IsSpace(q[start - 1])) && (p == |q| || IsSpace(q[p]))
  }

  /** A run without a letter or digit leaves no token. */
  lemma EmptyRun(q: string, start: nat, p: nat, rest: seq<string>, behind: seq<Stretch>)
    requires RunEnds(q, start, p) && Compact(q[start..p]) == []
    requires CutAt(q, if p == |q| then p else p + 1, rest, behind)
    ensures CutAt(q, start, rest, behind)
  {
    CompactEmpty(q[start..p]);
    assert forall x :: start <= x < p ==> q[x] == q[start..p][x - start];
    if p < |q| { SpaceIsDropped(q[p]); }
  }

  /** Any other run leaves its compaction. */
  lemma TokenRun(q: string, start: nat, p: nat, rest: seq<string>, behind: seq<Stretch>)
    requires RunEnds(q, start, p) && Compact(q[start..p]) != []
    requires CutAt(q, if p == |q| then p else p + 1, rest, behind)
    ensures CutAt(q, start, [Compact(q[start..p])] + rest, [Stretch(start, p)] + behind)
  {
    assert start < p;
    if p < |q| { SpaceIsDropped(q[p]); }
    PrependCovers(q, start, p, behind);
    assert IsCut(q, Compact(q[start..p]), Stretch(start, p));
    PrependCuts(q, start, p, Compact(q[start..p]), rest, behind);
  }

  lemma PrependCuts(q: string, start: nat, p: nat, token: string, rest: seq<string>, behind: seq<Stretch>)
    requires IsCut(q, token, Stretch(start, p)) && |behind| == |rest|
    requires forall i :: 0 <= i < |behind| ==> p < behind[i].lo && IsCut(q, rest[i], behind[i])
    requires forall i, j :: 0 <= i < j < |behind| ==> behind[i].hi < behind[j].lo
    ensures var runs, tokens := [Stretch(start, p)] + behind, [token] + rest;
            && (forall i :: 0 <= i < |runs| ==> start <= runs[i].lo && IsCut(q, tokens[i], runs[i]))
            && (forall i, j :: 0 <= i < j < |runs| ==> runs[i].hi < runs[j].lo)
  {
    var runs, tokens := [Stretch(start, p)] + behind, [token] + rest;
    forall i | 0 <= i < |runs| ensures start <= runs[i].lo && IsCut(q, tokens[i], runs[i]) {
      assert i > 0 ==> runs[i] == behind[i - 1] && tokens[i] == rest[i - 1];
    }
    forall i, j | 0 <= i < j < |runs| ensures runs[i].hi < runs[j].lo {
      assert runs[j] == behind[j - 1] && (i > 0 ==> runs[i] == behind[i - 1]);
    }
  }

  /** The run from `start` to `p`, in front of what is cut behind it. */
  lemma PrependRun(q: string, start: nat, p: nat, rest: seq<string>, behind: seq<Stretch>) returns (runs: seq<Stretch>)
    requires RunEnds(q, start, p) && CutAt(q, if p == |q| then p else p + 1, rest, behind)
    ensures var c := Compact(q[start..p]); CutAt(q, start, (if c == [] then [] else [c]) + rest, runs)
  {
    if Compact(q[start..p]) == [] {
      runs := behind;
      EmptyRun(q, start, p, rest, behind);
      assert [] + rest == rest;
    } else {
      runs := [Stretch(start, p)] + behind;
      TokenRun(q, start, p, rest, behind);
    }
  }

  lemma PrependCovers(q: string, start: nat, p: nat, behind: seq<Stretch>)
    requires start <= p <= |q|
    requires p < |q| ==> !IsAlnum(q[p])
    requires forall x :: p < x < |q| && IsAlnum(q[x]) ==> InRun(behind, x)
    ensures forall x :: start <= x < |q| && IsAlnum(q[x]) ==> InRun([Stretch(start, p)] + behind, x)
  {
    var runs := [Stretch(start, p)] + behind;
    forall x | start <= x < |q| && IsAlnum(q[x]) ensures InRun(runs, x) {
      if x < p {
        assert Stretch(start, p) in runs;
      } else {
        var r :| r in behind && r.lo <= x < r.hi;
        assert r in runs;
      }
    }
  }

  lemma {:induction false} SplitCuts(q: string, start: nat, p: nat) returns (runs: seq<Stretch>)
    requires start <= p <= |q| && SpaceFree(q, start, p) && (start == 0 || IsSpace(q[start - 1]))
    ensures CutAt(q, start, CompactAll(Split(q[p..], q[start..p])), runs)
    decreases |q| - p
  {
    if p == |q| {
      runs := PrependRun(q, start, p, [], []);
      CompactAllCons(q[start..p], []);
      assert q[p..] == [] && [q[start..p]] + [] == [q[start..p]];
    } else if IsSpace(q[p]) {
      var behind := SplitCuts(q, p + 1, p + 1);
      assert q[p..][1..] == q[p + 1..] && q[p + 1..p + 1] == [];
      runs := PrependRun(q, start, p, CompactAll(Split(q[p + 1..], [])), behind);
      CompactAllCons(q[start..p], Split(q[p + 1..], []));
    } else {
      runs := SplitCuts(q, start, p + 1);
      assert q[p..][1..] == q[p + 1..] && q[start..p] + [q[p]] == q[start..p + 1];
    }
  }

  lemma CompactAllCons(piece: string, rest: seq<string>)
    ensures CompactAll([piece] + rest) == (if Compact(piece) == [] then [] else [Compact(piece)]) + CompactAll(rest)
  {
    assert ([piece] + rest)[1..] == rest;
  }

  /** Where the cuts are: the tokens are, in order, the compactions of exactly those maximal
      whitespace-free runs of the clipped query that have a letter or digit. */
  lemma TokensAreRuns(query: string) returns (runs: seq<Stretch>)
    ensures CutAt(Clip(query), 0, Tokenize(query), runs) && forall t :: t in Tokenize(query) ==> t != []
  {
    var q := Clip(query);
    TokenizeJoins(query);
    runs := SplitCuts(q, 0, 0);
    assert q[0..] == q && q[0..0] == [];
  }

  // ---- Names --------------------------------------------------------------------

  /** What is left of a name after compaction, where in the name each character was, and which of
      them begin a word. */
  datatype Name = Name(text: string, origin: seq<nat>, starts: seq<nat>)

  predicate StartsWord(origin: seq<nat>, k: nat)
    requires k < |origin|
  {
    k == 0 || origin[k] != origin[k - 1] + 1
  }

  ghost predicate OriginOf(raw: string, text: string, origin: seq<nat>) {
    && |text| == |origin|
    && Increasing(origin)
    && (forall k :: 0 <= k < |origin| ==>
          origin[k] < |raw| && IsAlnum(raw[origin[k]]) && text[k] == Lower(raw[origin[k]]))
    && (forall i :: 0 <= i < |raw| && IsAlnum(raw[i]) ==> i in origin)
  }

  ghost predicate WordsOf(origin: seq<nat>, starts: seq<nat>) {
    && Increasing(starts)
    && (forall k: nat :: k in starts <==> k < |origin| && StartsWord(origin, k))
  }

  ghost predicate Prepared(raw: string, name: Name) {
    OriginOf(raw, name.text, name.origin) && WordsOf(name.origin, name.starts)
  }

  lemma OriginGrows(raw: string, i: nat, text: string, origin: seq<nat>)
    requires i < |raw| && OriginOf(raw[..i], text, origin)
    ensures if IsAlnum(raw[i]) then OriginOf(raw[..i + 1], text + [Lower(raw[i])], origin + [i])
            else OriginOf(raw[..i + 1], text, origin)
    ensures Compact(raw[..i + 1]) == Compact(raw[..i]) + if IsAlnum(raw[i]) then [Lower(raw[i])] else []
  {
    assert raw[..i + 1] == raw[..i] + [raw[i]];
    CompactConcat(raw[..i], [raw[i]]);
  }

  /** The first half of `prepareName`: compaction that remembers where each character was. */
  method CompactWithOrigin(raw: string) returns (text: string, origin: seq<nat>)
    ensures OriginOf(raw, text, origin) && text == Compact(raw)
  {
    text, origin := [], [];
    for i := 0 to |raw|
      invariant OriginOf(raw[..i], text, origin) && text == Compact(raw[..i])
    {
      var ch := Lower(raw[i]);
      OriginGrows(raw, i, text, origin);
      if IsCompact(ch) {
        text := text + [ch];
        origin := origin + [i];
      }
    }
    assert raw[..|raw|] == raw;
  }

  method PrepareName(raw: string) returns (name: Name)
    ensures Prepared(raw, name) && name.text == Compact(raw)
  {
    var text, origin := CompactWithOrigin(raw);
    var starts: seq<nat> := [];
    for k := 0 to |origin|
      invariant Increasing(starts)
      invariant forall i :: 0 <= i < |starts| ==> starts[i] < k
      invariant forall j: nat :: j in starts <==> j < k && StartsWord(origin, j)
    {
      if StartsWord(origin, k) {
        starts := starts + [k];
      }
    }
    name := Name(text, origin, starts);
  }

  // ---- Embeddings ---------------------------------------------------------------

  /** Strictly increasing text positions that spell the token. */
  ghost predicate Embeds(token: string, text: string, ix: seq<nat>) {
    && |ix| == |token|
    && Increasing(ix)
    && forall i :: 0 <= i < |ix| ==> ix[i] < |text| && text[ix[i]] == token[i]
  }

  lemma EmbedsConcat(a: string, b: string, text: string, ix: seq<nat>, jx: seq<nat>)
    requires Embeds(a, text, ix) && Embeds(b, text, jx)
    requires forall i, j :: 0 <= i < |ix| && 0 <= j < |jx| ==> ix[i] < jx[j]
    ensures Embeds(a + b, text, ix + jx)
  {
  }
}
