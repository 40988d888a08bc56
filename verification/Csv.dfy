/** Comma-separated lists as control messages carry them. */
module Csv {

  function FindComma(value: string, i: nat): (end: nat)
    requires i <= |value|
    ensures i <= end <= |value|
    ensures end < |value| ==> value[end] == ','
    ensures forall k :: i <= k < end ==> value[k] != ','
    decreases |value| - i
  {
    if i == |value| || value[i] == ',' then i else FindComma(value, i + 1)
  }

  predicate IsToken(token: string) {
    token != "" && ',' !in token
  }

  /** The non-empty stretches between commas. */
  function SplitFrom(value: string, start: nat): (tokens: seq<string>)
    requires start <= |value|
    ensures forall k :: 0 <= k < |tokens| ==> IsToken(tokens[k])
    decreases |value| - start, 1
  {
    var end := FindComma(value, start);
    TokenBefore(value, start, end) + Rest(value, end)
  }

  function Rest(value: string, end: nat): (tokens: seq<string>)
    requires end <= |value|
    ensures forall k :: 0 <= k < |tokens| ==> IsToken(tokens[k])
    decreases |value| - end, 0
  {
    if end == |value| then [] else SplitFrom(value, end + 1)
  }

  function Split(value: string): (tokens: seq<string>)
    ensures forall k :: 0 <= k < |tokens| ==> IsToken(tokens[k])
  {
    SplitFrom(value, 0)
  }

  function Join(values: seq<string>): string {
    if values == [] then ""
    else if |values| == 1 then values[0]
    else Join(values[..|values| - 1]) + "," + values[|values| - 1]
  }

  function TokenBefore(value: string, start: nat, end: nat): seq<string>
    requires start <= end <= |value|
  {
    if end > start then [value[start..end]] else []
  }

  lemma Associate(a: seq<string>, b: seq<string>, c: seq<string>)
    ensures a + (b + c) == (a + b) + c
  {
  }

  lemma SplitStep(tokens: seq<string>, value: string, start: nat)
    requires start <= |value|
    ensures var comma := FindComma(value, start);
      tokens + SplitFrom(value, start) == (tokens + TokenBefore(value, start, comma)) + Rest(value, comma)
  {
    var comma := FindComma(value, start);
    Associate(tokens, TokenBefore(value, start, comma), Rest(value, comma));
  }

  /** split_csv */
  method SplitCsv(value: string) returns (tokens: seq<string>)
    ensures tokens == Split(value)
  {
    tokens := [];
    ghost var all := Split(value);
    var start := 0;
    assert tokens + SplitFrom(value, start) == all;
    while true
      invariant start <= |value| && tokens + SplitFrom(value, start) == all
      decreases |value| - start
    {
      var comma := FindComma(value, start);
      SplitStep(tokens, value, start);
      tokens := tokens + TokenBefore(value, start, comma);
      if comma == |value| {
        assert tokens + [] == tokens;
        return;
      }
      start := comma + 1;
    }
  }

  /** join_csv */
  method JoinCsv(values: seq<string>) returns (text: string)
    ensures text == Join(values)
  {
    text := "";
    for i := 0 to |values|
      invariant text == Join(values[..i])
    {
      assert values[..i + 1][..i] == values[..i];
      if i > 0 {
        text := text + ",";
      }
      text := text + values[i];
    }
    assert values[..|values|] == values;
  }

  predicate Extends(whole: string, value: string, token: string) {
    && |whole| == |value| + 1 + |token|
    && whole[..|value|] == value && whole[|value|] == ',' && whole[|value| + 1..] == token
  }

  lemma LastToken(whole: string, value: string, token: string)
    requires Extends(whole, value, token) && IsToken(token)
    ensures SplitFrom(whole, |value| + 1) == [token]
  {
    forall k | |value| + 1 <= k < |whole| ensures whole[k] != ',' {
      assert whole[k] == token[k - |value| - 1];
    }
    CommaAt(whole, |value| + 1, |whole|);
    assert whole[|value| + 1..|whole|] == token;
  }

  lemma FirstTokenSame(whole: string, value: string, token: string, start: nat)
    requires start <= |value| && Extends(whole, value, token)
    ensures FindComma(whole, start) == FindComma(value, start)
    ensures TokenBefore(whole, start, FindComma(value, start)) == TokenBefore(value, start, FindComma(value, start))
  {
    var end := FindComma(value, start);
    forall k | 0 <= k < |value| ensures whole[k] == value[k] {
      assert whole[..|value|][k] == value[k];
    }
    CommaAt(whole, start, end);
    assert whole[start..end] == value[start..end];
  }

  /** A further token behind a comma is split off at the end. */
  lemma {:induction false} SplitAppend(whole: string, value: string, token: string, start: nat)
    requires start <= |value| && IsToken(token) && Extends(whole, value, token)
    ensures SplitFrom(whole, start) == SplitFrom(value, start) + [token]
    decreases |value| - start
  {
    var end := FindComma(value, start);
    FirstTokenSame(whole, value, token, start);
    if end == |value| {
      LastToken(whole, value, token);
      Associate(TokenBefore(value, start, end), [], [token]);
    } else {
      SplitAppend(whole, value, token, end + 1);
      Associate(TokenBefore(value, start, end), SplitFrom(value, end + 1), [token]);
    }
  }

  lemma CommaAt(value: string, start: nat, end: nat)
    requires start <= end <= |value| && (end < |value| ==> value[end] == ',')
    requires forall k :: start <= k < end ==> value[k] != ','
    ensures FindComma(value, start) == end
  {
    var found := FindComma(value, start);
    assert !(found < end) && !(end < found);
  }

  predicate AllTokens(values: seq<string>) {
    forall k :: 0 <= k < |values| ==> IsToken(values[k])
  }

  lemma {:induction false} SplitOfJoin(values: seq<string>)
    requires AllTokens(values)
    ensures Split(Join(values)) == values
    decreases |values|
  {
    if values == [] {
      assert Rest("", 0) == [];
    } else if |values| == 1 {
      var token := values[0];
      CommaAt(token, 0, |token|);
      assert token[0..|token|] == token;
      assert Split(token) == TokenBefore(token, 0, |token|) + Rest(token, |token|);
    } else {
      var init, last := values[..|values| - 1], values[|values| - 1];
      SplitOfJoin(init);
      SplitAppend(Join(values), Join(init), last, 0);
      assert values == init + [last];
    }
  }

  /** A list survives being joined and split exactly when its members are non-empty and free of commas. */
  lemma RoundTripExactly(values: seq<string>)
    ensures Split(Join(values)) == values <==> AllTokens(values)
  {
    if AllTokens(values) {
      SplitOfJoin(values);
    }
  }
}
