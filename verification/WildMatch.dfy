/**
 The glob matcher of ignore rules: the recursion over pattern and text, the memo table that
 shortens it, and what a pattern means as a list of tokens.
 */
module WildMatch {
  import opened Prelude

  // ---------------------------------------------------------------- characters

  /** Whether plain char is signed depends on the platform; every statement here holds either way. */
  const CHAR_IS_SIGNED: bool

  /** The number a byte compares as. */
  function Code(c: char): int {
    if CHAR_IS_SIGNED && 128 <= c as int < 256 then c as int - 256 else c as int
  }

  // ---------------------------------------------------------------- the recursion

  /** The end of the run of stars that starts at or before `i`. */
  function StarEnd(pattern: string, i: nat): (next: nat)
    requires i <= |pattern|
    ensures i <= next <= |pattern|
    ensures forall j :: i <= j < next ==> pattern[j] == '*'
    ensures next < |pattern| ==> pattern[next] != '*'
    decreases |pattern| - i
  {
    if i < |pattern| && pattern[i] == '*' then StarEnd(pattern, i + 1) else i
  }

  predicate IsGlobstar(pattern: string, pi: nat)
    requires pi < |pattern|
  {
    var next := StarEnd(pattern, pi);
    next >= pi + 2 && (pi == 0 || pattern[pi - 1] == '/') && (next == |pattern| || pattern[next] == '/')
  }

  /** pattern.find(']', i) */
  function FindBracket(pattern: string, i: nat): (end: Option<nat>)
    requires i <= |pattern|
    ensures end.Some? ==> i <= end.value < |pattern| && pattern[end.value] == ']'
    ensures forall j :: i <= j < (if end.Some? then end.value else |pattern|) ==> pattern[j] != ']'
    decreases |pattern| - i
  {
    if i == |pattern| then None else if pattern[i] == ']' then Some(i) else FindBracket(pattern, i + 1)
  }

  /** The character at `i`, or the one after it when it is escaped, and where the next one starts. */
  function CharAt(pattern: string, i: nat, end: nat): (r: (char, nat))
    requires i < end <= |pattern|
    ensures i < r.1 <= end
  {
    if pattern[i] == '\\' && i + 1 < end then (pattern[i + 1], i + 2) else (pattern[i], i + 1)
  }

  /** A closed range of characters. */
  datatype Range = Range(low: char, high: char) {
    predicate Has(value: char) {
      Code(low) <= Code(value) <= Code(high)
    }
  }

  /** The class member that starts at `i`, and where the next one starts; either end may be escaped. */
  function ItemAt(pattern: string, i: nat, end: nat): (item: (Range, nat))
    requires i < end <= |pattern|
    ensures i < item.1 <= end
  {
    var first := CharAt(pattern, i, end);
    if first.1 + 1 < end && pattern[first.1] == '-' then
      var last := CharAt(pattern, first.1 + 1, end);
      (Range(first.0, last.0), last.1)
    else (Range(first.0, first.0), first.1)
  }

  /** A class between `i` and `end` lists the value, as itself or in a range. */
  predicate InItems(pattern: string, i: nat, end: nat, value: char)
    requires i <= end <= |pattern|
    decreases end - i
  {
    if i == end then false
    else ItemAt(pattern, i, end).0.Has(value) || InItems(pattern, ItemAt(pattern, i, end).1, end, value)
  }

  predicate Negated(pattern: string, begin: nat, end: nat)
    requires begin <= end <= |pattern|
  {
    begin < end && (pattern[begin] == '!' || pattern[begin] == '^')
  }

  predicate InClass(pattern: string, begin: nat, end: nat, value: char)
    requires begin <= end <= |pattern|
  {
    if Negated(pattern, begin, end) then !InItems(pattern, begin + 1, end, value)
    else InItems(pattern, begin, end, value)
  }

  /** character_class_matches */
  method CharacterClassMatches(pattern: string, begin: nat, end: nat, value: char) returns (r: bool)
    requires begin <= end <= |pattern|
    ensures r == InClass(pattern, begin, end, value)
  {
    var negated, i, matched := false, begin, false;
    if i < end && (pattern[i] == '!' || pattern[i] == '^') {
      negated := true;
      i := i + 1;
    }
    ghost var start := i;
    while i < end
      invariant start <= i <= end
      invariant InItems(pattern, start, end, value) == (matched || InItems(pattern, i, end, value))
    {
      ghost var item := ItemAt(pattern, i, end);
      var first := pattern[i];
      i := i + 1;
      if first == '\\' && i < end {
        first := pattern[i];
        i := i + 1;
      }
      if i + 1 < end && pattern[i] == '-' {
        i := i + 1;
        var last := pattern[i];
        i := i + 1;
        if last == '\\' && i < end {
          last := pattern[i];
          i := i + 1;
        }
        assert item == (Range(first, last), i);
        if Code(first) <= Code(value) && Code(value) <= Code(last) {
          matched := true;
        }
      } else {
        assert item == (Range(first, first), i);
        if first == value {
          matched := true;
        }
      }
    }
    return if negated then !matched else matched;
  }

  /** The matcher without its table. */
  predicate Matches(pattern: string, text: string, pi: nat, ti: nat)
    requires pi <= |pattern| && ti <= |text|
    decreases |pattern| - pi, |text| - ti
  {
    if pi == |pattern| then ti == |text|
    else if pattern[pi] == '*' then
      var next := StarEnd(pattern, pi);
      if IsGlobstar(pattern, pi) then
        || (next < |pattern| && pattern[next] == '/' && Matches(pattern, text, next + 1, ti))
        || Matches(pattern, text, next, ti)
        || (ti < |text| && Matches(pattern, text, pi, ti + 1))
      else
        || Matches(pattern, text, next, ti)
        || (ti < |text| && text[ti] != '/' && Matches(pattern, text, pi, ti + 1))
    else if ti < |text| && pattern[pi] == '?' then text[ti] != '/' && Matches(pattern, text, pi + 1, ti + 1)
    else if ti < |text| && pattern[pi] == '[' then
      var end := FindBracket(pattern, pi + 1);
      if end.None? then text[ti] == '[' && Matches(pattern, text, pi + 1, ti + 1)
      else
        text[ti] != '/' && InClass(pattern, pi + 1, end.value, text[ti])
        && Matches(pattern, text, end.value + 1, ti + 1)
    else
      var escaped := pattern[pi] == '\\' && pi + 1 < |pattern|;
      var expected := if escaped then pattern[pi + 1] else pattern[pi];
      ti < |text| && expected == text[ti] && Matches(pattern, text, if escaped then pi + 2 else pi + 1, ti + 1)
  }

  // ---------------------------------------------------------------- the table

  /** Where row `pi` of the table starts. */
  function Row(pi: nat, columns: nat): nat {
    if pi == 0 then 0 else Row(pi - 1, columns) + columns
  }

  lemma {:induction false} RowIsProduct(pi: nat, columns: nat)
    ensures Row(pi, columns) == pi * columns
  {
    if pi > 0 {
      RowIsProduct(pi - 1, columns);
    }
  }

  lemma {:induction false} RowGrows(a: nat, b: nat, columns: nat)
    requires a < b
    ensures Row(a, columns) + columns <= Row(b, columns)
    decreases b
  {
    if a < b - 1 {
      RowGrows(a, b - 1, columns);
    }
  }

  /** Different positions use different cells, all inside the table. */
  lemma CellsApart(pi: nat, ti: nat, pj: nat, tj: nat, columns: nat)
    requires ti < columns && tj < columns
    requires Row(pi, columns) + ti == Row(pj, columns) + tj
    ensures pi == pj && ti == tj
  {
    if pi < pj {
      RowGrows(pi, pj, columns);
    } else if pj < pi {
      RowGrows(pj, pi, columns);
    }
  }

  class Matcher {
    const pattern: string
    const text: string
    const columns: nat
    const memo: array<int>

    ghost predicate Sized() {
      columns == |text| + 1 && memo.Length == Row(|pattern| + 1, columns)
    }

    /** Every filled cell holds the answer of the plain recursion. */
    ghost predicate TableOk()
      reads memo
    {
      Sized() && forall pi: nat, ti: nat :: pi <= |pattern| && ti <= |text| ==> CellOk(pi, ti)
    }

    ghost predicate CellOk(pi: nat, ti: nat)
      requires Sized() && pi <= |pattern| && ti <= |text|
      reads memo
    {
      RowGrows(pi, |pattern| + 1, columns);
      var cached := memo[Row(pi, columns) + ti];
      cached == -1 || cached == (if Matches(pattern, text, pi, ti) then 1 else 0)
    }

    constructor (pattern: string, text: string)
      ensures this.pattern == pattern && this.text == text && TableOk() && fresh(memo)
    {
      this.pattern, this.text, this.columns := pattern, text, |text| + 1;
      memo := new int[(|pattern| + 1) * (|text| + 1)](_ => -1);
      new;
      RowIsProduct(|pattern| + 1, columns);
      forall pi: nat, ti: nat | pi <= |pattern| && ti <= |text| ensures CellOk(pi, ti) {
        RowGrows(pi, |pattern| + 1, columns);
      }
    }

    method Cell(pi: nat, ti: nat) returns (cell: nat)
      requires Sized() && pi <= |pattern| && ti <= |text|
      ensures cell == Row(pi, columns) + ti < memo.Length
    {
      RowIsProduct(pi, columns);
      RowGrows(pi, |pattern| + 1, columns);
      return pi * columns + ti;
    }

    method Store(pi: nat, ti: nat, result: bool)
      requires TableOk() && pi <= |pattern| && ti <= |text|
      requires result == Matches(pattern, text, pi, ti)
      modifies memo
      ensures TableOk()
    {
      var cell := Cell(pi, ti);
      label before:
      memo[cell] := if result then 1 else 0;
      forall pj: nat, tj: nat | pj <= |pattern| && tj <= |text| ensures CellOk(pj, tj) {
        assert old@before(CellOk(pj, tj));
        RowGrows(pj, |pattern| + 1, columns);
        if Row(pj, columns) + tj == cell {
          CellsApart(pi, ti, pj, tj, columns);
        }
      }
    }

    /** The recursive lambda of wildmatch, table included. */
    method Match(pi: nat, ti: nat) returns (result: bool)
      requires TableOk() && pi <= |pattern| && ti <= |text|
      modifies memo
      ensures TableOk() && result == Matches(pattern, text, pi, ti)
      decreases |pattern| - pi, |text| - ti, 1
    {
      var cell := Cell(pi, ti);
      assert CellOk(pi, ti);
      if memo[cell] != -1 {
        return memo[cell] != 0;
      }
      result := false;
      if pi == |pattern| {
        result := ti == |text|;
      } else if pattern[pi] == '*' {
        result := MatchStars(pi, ti);
      } else if ti < |text| && pattern[pi] == '?' {
        if text[ti] != '/' {
          result := Match(pi + 1, ti + 1);
        }
      } else if ti < |text| && pattern[pi] == '[' {
        var end := FindBracket(pattern, pi + 1);
        if end.None? {
          if text[ti] == '[' {
            result := Match(pi + 1, ti + 1);
          }
        } else if text[ti] != '/' {
          var inside := CharacterClassMatches(pattern, pi + 1, end.value, text[ti]);
          if inside {
            result := Match(end.value + 1, ti + 1);
          }
        }
      } else {
        var next, expected := pi + 1, pattern[pi];
        if expected == '\\' && next < |pattern| {
          expected, next := pattern[next], next + 1;
        }
        if ti < |text| && expected == text[ti] {
          result := Match(next, ti + 1);
        }
      }
      Store(pi, ti, result);
    }

    method MatchStars(pi: nat, ti: nat) returns (result: bool)
      requires TableOk() && pi < |pattern| && pattern[pi] == '*' && ti <= |text|
      modifies memo
      ensures TableOk() && result == Matches(pattern, text, pi, ti)
      decreases |pattern| - pi, |text| - ti, 0
    {
      var next := StarEnd(pattern, pi);
      assert next > pi;
      result := false;
      if IsGlobstar(pattern, pi) {
        if next < |pattern| && pattern[next] == '/' {
          result := Match(next + 1, ti);
        }
        if !result {
          result := Match(next, ti);
        }
        if !result && ti < |text| {
          result := Match(pi, ti + 1);
        }
      } else {
        result := Match(next, ti);
        if !result && ti < |text| && text[ti] != '/' {
          result := Match(pi, ti + 1);
        }
      }
    }
  }

  /** wildmatch */
  method WildMatches(pattern: string, text: string) returns (result: bool)
    ensures result == Matches(pattern, text, 0, 0)
  {
    var matcher := new Matcher(pattern, text);
    result := matcher.Match(0, 0);
  }
}
