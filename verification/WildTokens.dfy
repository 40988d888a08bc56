/** What a glob pattern means: a list of tokens, each covering a stretch of the text. */
module WildTokens {
  import opened Prelude
  import opened WildMatch

  /** `Globstar(dropsSlash)`: a run of stars that fills its component; a slash after it may vanish. */
  datatype Token =
    | Lit(c: char)
    | AnyChar
    | Class(negated: bool, ranges: seq<Range>)
    | Star
    | Globstar(dropsSlash: bool)

  function Ranges(pattern: string, i: nat, end: nat): seq<Range>
    requires i <= end <= |pattern|
    decreases end - i
  {
    if i == end then [] else [ItemAt(pattern, i, end).0] + Ranges(pattern, ItemAt(pattern, i, end).1, end)
  }

  function ClassToken(pattern: string, begin: nat, end: nat): Token
    requires begin <= end <= |pattern|
  {
    if Negated(pattern, begin, end) then Class(true, Ranges(pattern, begin + 1, end))
    else Class(false, Ranges(pattern, begin, end))
  }

  /** The token that starts at `pi`, and where the next one starts. */
  function TokenAt(pattern: string, pi: nat): (item: (Token, nat))
    requires pi < |pattern|
    ensures pi < item.1 <= |pattern|
  {
    if pattern[pi] == '*' then
      var next := StarEnd(pattern, pi);
      (if IsGlobstar(pattern, pi) then Globstar(next < |pattern|) else Star, next)
    else if pattern[pi] == '?' then (AnyChar, pi + 1)
    else if pattern[pi] == '[' then
      var end := FindBracket(pattern, pi + 1);
      if end.None? then (Lit('['), pi + 1) else (ClassToken(pattern, pi + 1, end.value), end.value + 1)
    else if pattern[pi] == '\\' && pi + 1 < |pattern| then (Lit(pattern[pi + 1]), pi + 2)
    else (Lit(pattern[pi]), pi + 1)
  }

  /** The tokens of the pattern from `pi` on. */
  function Parse(pattern: string, pi: nat): seq<Token>
    requires pi <= |pattern|
    decreases |pattern| - pi
  {
    if pi == |pattern| then [] else [TokenAt(pattern, pi).0] + Parse(pattern, TokenAt(pattern, pi).1)
  }

  /** The token covers text[i..j]. Only a globstar, or a slash itself, covers a slash. */
  predicate Covers(token: Token, text: string, i: nat, j: nat)
    requires i <= j <= |text|
  {
    match token
    case Lit(c) => j == i + 1 && text[i] == c
    case AnyChar => j == i + 1 && text[i] != '/'
    case Class(negated, ranges) => j == i + 1 && text[i] != '/' && InRanges(ranges, text[i]) != negated
    case Star => forall k :: i <= k < j ==> text[k] != '/'
    case Globstar(_) => true
  }

  predicate InRanges(ranges: seq<Range>, value: char) {
    exists k :: 0 <= k < |ranges| && ranges[k].Has(value)
  }

  /** text[i..] can be cut into stretches that the tokens cover in order. */
  predicate Accepts(tokens: seq<Token>, text: string, i: nat)
    requires i <= |text|
    decreases |tokens|
  {
    if tokens == [] then i == |text|
    else exists j :: i <= j <= |text| && Covers(tokens[0], text, i, j) && Continues(tokens, text, j)
  }

  /** After the first token: the rest, or the rest without the slash that follows a globstar. */
  predicate Continues(tokens: seq<Token>, text: string, j: nat)
    requires tokens != [] && j <= |text|
    decreases |tokens|, 0
  {
    || Accepts(tokens[1..], text, j)
    || (tokens[0] == Globstar(true) && |tokens| > 1 && Accepts(tokens[2..], text, j))
  }

  // ---------------------------------------------------------------- the matcher decides exactly this

  lemma {:induction false} ItemsAreRanges(pattern: string, i: nat, end: nat, value: char)
    requires i <= end <= |pattern|
    ensures InItems(pattern, i, end, value) <==> InRanges(Ranges(pattern, i, end), value)
    decreases end - i
  {
    if i < end {
      var item := ItemAt(pattern, i, end);
      ItemsAreRanges(pattern, item.1, end, value);
      RangesAppend(item.0, Ranges(pattern, item.1, end), value);
    }
  }

  lemma RangesAppend(range: Range, more: seq<Range>, value: char)
    ensures InRanges([range] + more, value) <==> range.Has(value) || InRanges(more, value)
  {
    assert ([range] + more)[0] == range;
    if InRanges(more, value) {
      var k :| 0 <= k < |more| && more[k].Has(value);
      assert ([range] + more)[k + 1] == more[k];
    }
  }

  lemma ClassIsToken(pattern: string, begin: nat, end: nat, value: char)
    requires begin <= end <= |pattern|
    ensures var token := ClassToken(pattern, begin, end);
      InClass(pattern, begin, end, value) <==> InRanges(token.ranges, value) != token.negated
  {
    if Negated(pattern, begin, end) {
      ItemsAreRanges(pattern, begin + 1, end, value);
    } else {
      ItemsAreRanges(pattern, begin, end, value);
    }
  }

  /** A token that covers exactly one character. */
  predicate Single(token: Token) {
    token.Lit? || token.AnyChar? || token.Class?
  }

  lemma AcceptsSingle(tokens: seq<Token>, text: string, i: nat)
    requires tokens != [] && i <= |text| && Single(tokens[0])
    ensures Accepts(tokens, text, i) <==>
      i < |text| && Covers(tokens[0], text, i, i + 1) && Accepts(tokens[1..], text, i + 1)
  {
    if i < |text| && Covers(tokens[0], text, i, i + 1) && Accepts(tokens[1..], text, i + 1) {
      assert Continues(tokens, text, i + 1);
    }
  }

  lemma FirstCut(tokens: seq<Token>, text: string, i: nat) returns (j: nat)
    requires tokens != [] && i <= |text| && Accepts(tokens, text, i)
    ensures i <= j <= |text| && Covers(tokens[0], text, i, j) && Continues(tokens, text, j)
  {
    j :| i <= j <= |text| && Covers(tokens[0], text, i, j) && Continues(tokens, text, j);
  }

  lemma AcceptsBy(tokens: seq<Token>, text: string, i: nat, j: nat)
    requires tokens != [] && i <= j <= |text| && Covers(tokens[0], text, i, j) && Continues(tokens, text, j)
    ensures Accepts(tokens, text, i)
  {
  }

  /** A star or globstar covers nothing, or one more character first. */
  lemma AcceptsRun(tokens: seq<Token>, text: string, i: nat)
    requires tokens != [] && i <= |text| && (tokens[0].Star? || tokens[0].Globstar?)
    ensures Accepts(tokens, text, i) <==>
      || Continues(tokens, text, i)
      || (i < |text| && (tokens[0].Globstar? || text[i] != '/') && Accepts(tokens, text, i + 1))
  {
    var token := tokens[0];
    if Continues(tokens, text, i) {
      assert Covers(token, text, i, i);
    }
    if i < |text| && (token.Globstar? || text[i] != '/') && Accepts(tokens, text, i + 1) {
      var j := FirstCut(tokens, text, i + 1);
      assert Covers(token, text, i, j);
    }
    if Accepts(tokens, text, i) && !Continues(tokens, text, i) {
      var j :| i <= j <= |text| && Covers(token, text, i, j) && Continues(tokens, text, j);
      assert j > i;
      assert Covers(token, text, i + 1, j);
    }
  }

  /** The tokens of a pattern that goes on with a run of stars. */
  lemma StarTokens(pattern: string, pi: nat)
    requires pi < |pattern| && pattern[pi] == '*'
    ensures pi < StarEnd(pattern, pi) <= |pattern|
    ensures var next := StarEnd(pattern, pi);
      && Parse(pattern, pi)
         == [if IsGlobstar(pattern, pi) then Globstar(next < |pattern|) else Star] + Parse(pattern, next)
      && (IsGlobstar(pattern, pi) && next < |pattern| ==>
            Parse(pattern, next) == [Lit('/')] + Parse(pattern, next + 1))
  {
  }

  lemma {:induction false} StarsMean(pattern: string, text: string, pi: nat, ti: nat)
    requires pi < |pattern| && ti <= |text| && pattern[pi] == '*'
    ensures Matches(pattern, text, pi, ti) <==> Accepts(Parse(pattern, pi), text, ti)
    decreases |pattern| - pi, |text| - ti, 0
  {
    var tokens, next := Parse(pattern, pi), StarEnd(pattern, pi);
    StarTokens(pattern, pi);
    assert tokens[1..] == Parse(pattern, next);
    AcceptsRun(tokens, text, ti);
    MatcherMeans(pattern, text, next, ti);
    if ti < |text| {
      StarsMean(pattern, text, pi, ti + 1);
    }
    if IsGlobstar(pattern, pi) && next < |pattern| {
      MatcherMeans(pattern, text, next + 1, ti);
      assert tokens[2..] == Parse(pattern, next + 1);
    }
  }

  /**
   The matcher from any position decides whether the rest of the text can be cut up as the rest of
   the pattern says.
   */
  lemma {:induction false} MatcherMeans(pattern: string, text: string, pi: nat, ti: nat)
    requires pi <= |pattern| && ti <= |text|
    ensures Matches(pattern, text, pi, ti) <==> Accepts(Parse(pattern, pi), text, ti)
    decreases |pattern| - pi, |text| - ti, 1
  {
    if pi < |pattern| {
      var tokens := Parse(pattern, pi);
      if pattern[pi] == '*' {
        StarsMean(pattern, text, pi, ti);
      } else {
        AcceptsSingle(tokens, text, ti);
        var end, next := FindBracket(pattern, pi + 1), TokenAt(pattern, pi).1;
        assert tokens[1..] == Parse(pattern, next);
        if ti < |text| {
          MatcherMeans(pattern, text, next, ti + 1);
          if pattern[pi] == '[' && end.Some? {
            ClassIsToken(pattern, pi + 1, end.value, text[ti]);
          }
        }
      }
    }
  }

  /** wildmatch accepts exactly the texts its tokens describe. */
  lemma PatternMeans(pattern: string, text: string)
    ensures Matches(pattern, text, 0, 0) <==> Accepts(Parse(pattern, 0), text, 0)
  {
    MatcherMeans(pattern, text, 0, 0);
  }

  // ---------------------------------------------------------------- slashes

  predicate NoGlobstar(tokens: seq<Token>) {
    forall k :: 0 <= k < |tokens| ==> !tokens[k].Globstar?
  }

  function Slashes(text: string, i: nat, j: nat): nat
    requires i <= j <= |text|
    decreases j - i
  {
    if i == j then 0 else (if text[i] == '/' then 1 else 0) + Slashes(text, i + 1, j)
  }

  function LiteralSlashes(tokens: seq<Token>): nat {
    if tokens == [] then 0 else (if tokens[0] == Lit('/') then 1 else 0) + LiteralSlashes(tokens[1..])
  }

  lemma {:induction false} SlashesSplit(text: string, i: nat, j: nat, k: nat)
    requires i <= j <= k <= |text|
    ensures Slashes(text, i, k) == Slashes(text, i, j) + Slashes(text, j, k)
    decreases j - i
  {
    if i < j {
      SlashesSplit(text, i + 1, j, k);
    }
  }

  lemma {:induction false} NoSlash(text: string, i: nat, j: nat)
    requires i <= j <= |text| && forall k :: i <= k < j ==> text[k] != '/'
    ensures Slashes(text, i, j) == 0
    decreases j - i
  {
    if i < j {
      NoSlash(text, i + 1, j);
    }
  }

  /** Without a globstar a match has as many slashes as the pattern: stars, '?' and classes never cross one. */
  lemma {:induction false} PlainTokensKeepDepth(tokens: seq<Token>, text: string, i: nat)
    requires i <= |text| && NoGlobstar(tokens) && Accepts(tokens, text, i)
    ensures Slashes(text, i, |text|) == LiteralSlashes(tokens)
    decreases |tokens|
  {
    if tokens != [] {
      var j :| i <= j <= |text| && Covers(tokens[0], text, i, j) && Continues(tokens, text, j);
      PlainTokensKeepDepth(tokens[1..], text, j);
      SlashesSplit(text, i, j, |text|);
      if tokens[0].Star? {
        NoSlash(text, i, j);
      } else {
        assert Slashes(text, i, j) == if text[i] == '/' then 1 else 0;
      }
    }
  }

  lemma PlainPatternKeepsDepth(pattern: string, text: string)
    requires NoGlobstar(Parse(pattern, 0)) && Matches(pattern, text, 0, 0)
    ensures Slashes(text, 0, |text|) == LiteralSlashes(Parse(pattern, 0))
  {
    PatternMeans(pattern, text);
    PlainTokensKeepDepth(Parse(pattern, 0), text, 0);
  }

  // ---------------------------------------------------------------- a leading globstar

  const ANY_DEPTH := "**/"

  /** `moved` is the pattern three characters further on, after a slash. */
  predicate Shifted(moved: string, pattern: string) {
    && |moved| == |pattern| + 3 && moved[2] == '/'
    && forall k :: 0 <= k < |pattern| ==> moved[k + 3] == pattern[k]
  }

  lemma {:induction false} StarEndShift(moved: string, pattern: string, i: nat)
    requires i <= |pattern| && Shifted(moved, pattern)
    ensures StarEnd(moved, i + 3) == StarEnd(pattern, i) + 3
    decreases |pattern| - i
  {
    if i < |pattern| && pattern[i] == '*' {
      StarEndShift(moved, pattern, i + 1);
    }
  }

  lemma {:induction false} FindBracketShift(moved: string, pattern: string, i: nat)
    requires i <= |pattern| && Shifted(moved, pattern)
    ensures FindBracket(moved, i + 3)
            == if FindBracket(pattern, i).None? then None else Some(FindBracket(pattern, i).value + 3)
    decreases |pattern| - i
  {
    if i < |pattern| && pattern[i] != ']' {
      FindBracketShift(moved, pattern, i + 1);
    }
  }

  lemma CharShift(moved: string, pattern: string, i: nat, end: nat)
    requires i < end <= |pattern| && Shifted(moved, pattern)
    ensures CharAt(moved, i + 3, end + 3) == (CharAt(pattern, i, end).0, CharAt(pattern, i, end).1 + 3)
  {
    assert moved[i + 3] == pattern[i];
    assert i + 1 < end ==> moved[i + 1 + 3] == pattern[i + 1];
  }

  lemma ItemShift(moved: string, pattern: string, i: nat, end: nat)
    requires i < end <= |pattern| && Shifted(moved, pattern)
    ensures ItemAt(moved, i + 3, end + 3) == (ItemAt(pattern, i, end).0, ItemAt(pattern, i, end).1 + 3)
  {
    CharShift(moved, pattern, i, end);
    var j := CharAt(pattern, i, end).1;
    assert j < end ==> moved[j + 3] == pattern[j];
    if j + 1 < end {
      CharShift(moved, pattern, j + 1, end);
    }
  }

  lemma RangesUnfold(pattern: string, i: nat, end: nat, range: Range, next: nat)
    requires i < end <= |pattern| && ItemAt(pattern, i, end) == (range, next)
    ensures Ranges(pattern, i, end) == [range] + Ranges(pattern, next, end)
  {
  }

  lemma {:induction false} RangesShift(moved: string, pattern: string, i: nat, end: nat)
    requires i <= end <= |pattern| && Shifted(moved, pattern)
    ensures Ranges(moved, i + 3, end + 3) == Ranges(pattern, i, end)
    decreases end - i
  {
    if i < end {
      var (range, next) := ItemAt(pattern, i, end);
      ItemShift(moved, pattern, i, end);
      RangesUnfold(pattern, i, end, range, next);
      RangesUnfold(moved, i + 3, end + 3, range, next + 3);
      RangesShift(moved, pattern, next, end);
    }
  }

  lemma GlobstarShift(moved: string, pattern: string, pi: nat)
    requires pi < |pattern| && Shifted(moved, pattern)
    ensures IsGlobstar(moved, pi + 3) <==> IsGlobstar(pattern, pi)
    ensures StarEnd(moved, pi + 3) == StarEnd(pattern, pi) + 3
  {
    var next := StarEnd(pattern, pi);
    StarEndShift(moved, pattern, pi);
    assert next < |pattern| ==> moved[next + 3] == pattern[next];
    assert pi > 0 ==> moved[pi - 1 + 3] == pattern[pi - 1];
  }

  lemma ClassShift(moved: string, pattern: string, begin: nat, end: nat)
    requires begin <= end <= |pattern| && Shifted(moved, pattern)
    ensures ClassToken(moved, begin + 3, end + 3) == ClassToken(pattern, begin, end)
  {
    assert begin < end ==> moved[begin + 3] == pattern[begin];
    if Negated(pattern, begin, end) {
      RangesShift(moved, pattern, begin + 1, end);
    } else {
      RangesShift(moved, pattern, begin, end);
    }
  }

  lemma TokenShift(moved: string, pattern: string, pi: nat)
    requires pi < |pattern| && Shifted(moved, pattern)
    ensures TokenAt(moved, pi + 3) == (TokenAt(pattern, pi).0, TokenAt(pattern, pi).1 + 3)
  {
    assert moved[pi + 3] == pattern[pi];
    assert pi + 1 < |pattern| ==> moved[pi + 1 + 3] == pattern[pi + 1];
    if pattern[pi] == '*' {
      GlobstarShift(moved, pattern, pi);
    } else if pattern[pi] == '[' {
      FindBracketShift(moved, pattern, pi + 1);
      var end := FindBracket(pattern, pi + 1);
      if end.Some? {
        ClassShift(moved, pattern, pi + 1, end.value);
      }
    }
  }

  lemma ParseUnfold(pattern: string, pi: nat, token: Token, next: nat)
    requires pi < |pattern| && TokenAt(pattern, pi) == (token, next)
    ensures Parse(pattern, pi) == [token] + Parse(pattern, next)
  {
  }

  /** The tokens of a pattern are the same when it is moved three characters on, after a slash. */
  lemma {:induction false} ParseShift(moved: string, pattern: string, pi: nat)
    requires pi <= |pattern| && Shifted(moved, pattern)
    ensures Parse(moved, pi + 3) == Parse(pattern, pi)
    decreases |pattern| - pi
  {
    if pi < |pattern| {
      var (token, next) := TokenAt(pattern, pi);
      TokenShift(moved, pattern, pi);
      ParseUnfold(pattern, pi, token, next);
      ParseUnfold(moved, pi + 3, token, next + 3);
      ParseShift(moved, pattern, next);
    }
  }

  lemma {:induction false} AcceptsSuffix(tokens: seq<Token>, text: string, i: nat, k: nat)
    requires i <= |text| && k <= |text| - i
    ensures Accepts(tokens, text[i..], k) <==> Accepts(tokens, text, i + k)
    decreases |tokens|
  {
    if tokens != [] {
      var suffix := text[i..];
      forall j: nat | k <= j <= |suffix|
        ensures (Covers(tokens[0], suffix, k, j) && Continues(tokens, suffix, j))
                <==> (Covers(tokens[0], text, i + k, i + j) && Continues(tokens, text, i + j))
      {
        CoversSuffix(tokens[0], text, i, k, j);
        AcceptsSuffix(tokens[1..], text, i, j);
        if |tokens| > 1 {
          AcceptsSuffix(tokens[2..], text, i, j);
        }
      }
      if j :| i + k <= j <= |text| && Covers(tokens[0], text, i + k, j) && Continues(tokens, text, j) {
        assert Covers(tokens[0], suffix, k, j - i) && Continues(tokens, suffix, j - i);
      }
    }
  }

  lemma CoversSuffix(token: Token, text: string, i: nat, k: nat, j: nat)
    requires i <= |text| && k <= j <= |text| - i
    ensures Covers(token, text[i..], k, j) <==> Covers(token, text, i + k, i + j)
  {
    assert forall x :: k <= x < j ==> text[i..][x] == text[i + x];
    assert forall x :: i + k <= x < i + j ==> text[x] == text[i..][x - i];
  }

  lemma AnyDepthSkips(tokens: seq<Token>, rest: seq<Token>, text: string) returns (k: nat)
    requires tokens == [Globstar(true), Lit('/')] + rest && Accepts(tokens, text, 0)
    ensures k <= |text| && Accepts(rest, text, k)
  {
    assert tokens[1..] == [Lit('/')] + rest && tokens[2..] == rest && tokens[1..][1..] == rest;
    k := FirstCut(tokens, text, 0);
    if !Accepts(rest, text, k) {
      AcceptsSingle(tokens[1..], text, k);
      k := k + 1;
    }
  }

  lemma AnyDepthReaches(tokens: seq<Token>, rest: seq<Token>, text: string, k: nat)
    requires tokens == [Globstar(true), Lit('/')] + rest && k <= |text| && Accepts(rest, text, k)
    ensures Accepts(tokens, text, 0)
  {
    assert tokens[2..] == rest;
    AcceptsBy(tokens, text, 0, k);
  }

  lemma TwoStarsEnd(whole: string)
    requires |whole| >= 3 && whole[0] == '*' && whole[1] == '*' && whole[2] == '/'
    ensures StarEnd(whole, 0) == 2 && IsGlobstar(whole, 0)
  {
    assert StarEnd(whole, 2) == 2;
    assert StarEnd(whole, 1) == 2;
  }

  lemma AnyDepthTokens(whole: string, pattern: string)
    requires Shifted(whole, pattern) && whole[0] == '*' && whole[1] == '*'
    ensures Parse(whole, 0) == [Globstar(true), Lit('/')] + Parse(pattern, 0)
  {
    TwoStarsEnd(whole);
    StarTokens(whole, 0);
    ParseShift(whole, pattern, 0);
    assert [Globstar(true)] + ([Lit('/')] + Parse(pattern, 0)) == [Globstar(true), Lit('/')] + Parse(pattern, 0);
  }

  // ANY_DEPTH before a pattern matches exactly the texts with some suffix that the pattern matches, at
  // a component boundary or not: the slash after a globstar may be dropped at any split.
  lemma LeadingGlobstar(pattern: string, text: string)
    ensures Matches(ANY_DEPTH + pattern, text, 0, 0) <==>
      exists k :: 0 <= k <= |text| && Matches(pattern, text[k..], 0, 0)
  {
    var tokens, rest := Parse(ANY_DEPTH + pattern, 0), Parse(pattern, 0);
    PatternMeans(ANY_DEPTH + pattern, text);
    AnyDepthTokens(ANY_DEPTH + pattern, pattern);
    if Accepts(tokens, text, 0) {
      var k := AnyDepthSkips(tokens, rest, text);
      SuffixMeans(pattern, text, k);
    }
    if k :| 0 <= k <= |text| && Matches(pattern, text[k..], 0, 0) {
      SuffixMeans(pattern, text, k);
      AnyDepthReaches(tokens, rest, text, k);
    }
  }

  lemma SuffixMeans(pattern: string, text: string, k: nat)
    requires k <= |text|
    ensures Matches(pattern, text[k..], 0, 0) <==> Accepts(Parse(pattern, 0), text, k)
  {
    PatternMeans(pattern, text[k..]);
    AcceptsSuffix(Parse(pattern, 0), text, k, 0);
  }
}
