/** Ignore rules over normalised relative paths: which rule decides, and what a rule covers. */
module GitIgnores {
  import opened Prelude
  import opened WildMatch
  import opened WildTokens

  datatype Rule = Rule(pattern: string, directoryOnly: bool, negated: bool, anchored: bool)

  /** A path as its components; a rule sees it relative to its own base, or not at all. */
  type Components = seq<string>

  function Join(path: Components): string {
    if path == [] then ""
    else if |path| == 1 then path[0]
    else Join(path[..|path| - 1]) + "/" + path[|path| - 1]
  }

  predicate IsPathPattern(rule: Rule) {
    rule.anchored || '/' in rule.pattern
  }

  /** The rule fits the first `k` components: as a whole path, or by the last of them alone. */
  predicate FitsAt(rule: Rule, path: Components, directory: bool, k: nat)
    requires 0 < k <= |path|
  {
    && (rule.directoryOnly ==> k < |path| || directory)
    && Matches(rule.pattern, if IsPathPattern(rule) then Join(path[..k]) else path[k - 1], 0, 0)
  }

  /** A rule matches a path when it fits the path itself or a directory above it. */
  predicate RuleMatches(rule: Rule, path: Components, directory: bool) {
    exists k :: 0 < k <= |path| && FitsAt(rule, path, directory, k)
  }

  /** path_candidates and match_rule: one candidate per component, each the previous one extended. */
  method MatchRule(rule: Rule, path: Components, directory: bool) returns (r: bool)
    ensures r == RuleMatches(rule, path, directory)
  {
    var prefix := "";
    for k := 0 to |path|
      invariant prefix == Join(path[..k])
      invariant forall j :: 0 < j <= k ==> !FitsAt(rule, path, directory, j)
    {
      assert path[..k + 1][..k] == path[..k];
      prefix := if k == 0 then path[0] else prefix + "/" + path[k];
      if !rule.directoryOnly || k + 1 < |path| || directory {
        var fits := WildMatches(rule.pattern, if IsPathPattern(rule) then prefix else path[k]);
        if fits {
          assert FitsAt(rule, path, directory, k + 1);
          return true;
        }
      }
    }
    return false;
  }

  // ---------------------------------------------------------------- where a rule fits

  predicate Named(path: Components) {
    forall i :: 0 <= i < |path| ==> path[i] != "" && '/' !in path[i]
  }

  lemma {:induction false} SlashesOfAppend(a: string, b: string, i: nat)
    requires i <= |a|
    ensures Slashes(a + b, i, |a|) == Slashes(a, i, |a|)
    decreases |a| - i
  {
    if i < |a| {
      SlashesOfAppend(a, b, i + 1);
    }
  }

  lemma SlashesOfSum(a: string, b: string)
    requires '/' !in b
    ensures Slashes(a + b, 0, |a + b|) == Slashes(a, 0, |a|)
  {
    SlashesSplit(a + b, 0, |a|, |a + b|);
    SlashesOfAppend(a, b, 0);
    assert forall k :: |a| <= k < |a + b| ==> (a + b)[k] == b[k - |a|];
    NoSlash(a + b, |a|, |a + b|);
  }

  lemma SlashesOfDir(a: string)
    ensures Slashes(a + "/", 0, |a| + 1) == Slashes(a, 0, |a|) + 1
  {
    SlashesSplit(a + "/", 0, |a|, |a| + 1);
    SlashesOfAppend(a, "/", 0);
    assert Slashes(a + "/", |a| + 1, |a| + 1) == 0;
  }

  /** A joined path has one slash less than components. */
  lemma {:induction false} JoinDepth(path: Components)
    requires Named(path) && path != []
    ensures Slashes(Join(path), 0, |Join(path)|) + 1 == |path|
    decreases |path|
  {
    var last := path[|path| - 1];
    if |path| == 1 {
      NoSlash(last, 0, |last|);
    } else {
      var front := Join(path[..|path| - 1]);
      JoinDepth(path[..|path| - 1]);
      SlashesOfDir(front);
      SlashesOfSum(front + "/", last);
    }
  }

  /**
   A rule with a slash in front or inside, and no globstar, fits at one depth only: that of its own
   slashes. So an anchored rule without further slashes decides about the first component.
   */
  lemma PathRuleDepth(rule: Rule, path: Components, directory: bool)
    requires Named(path) && (rule.anchored || '/' in rule.pattern) && NoGlobstar(Parse(rule.pattern, 0))
    ensures var k := LiteralSlashes(Parse(rule.pattern, 0)) + 1;
      RuleMatches(rule, path, directory) <==>
        && k <= |path| && Matches(rule.pattern, Join(path[..k]), 0, 0)
        && (rule.directoryOnly ==> k < |path| || directory)
  {
    var depth := LiteralSlashes(Parse(rule.pattern, 0)) + 1;
    forall k | 0 < k <= |path| && FitsAt(rule, path, directory, k) ensures k == depth {
      PlainPatternKeepsDepth(rule.pattern, Join(path[..k]));
      JoinDepth(path[..k]);
    }
    if depth <= |path| && Matches(rule.pattern, Join(path[..depth]), 0, 0)
       && (rule.directoryOnly ==> depth < |path| || directory) {
      assert FitsAt(rule, path, directory, depth);
    }
  }

  /** A rule without any slash looks for one component that fits, however deep. */
  lemma NameRuleFloats(rule: Rule, front: Components, path: Components)
    requires !rule.anchored && '/' !in rule.pattern
    ensures RuleMatches(rule, path, true) <==> exists name :: name in path && Matches(rule.pattern, name, 0, 0)
    ensures forall directory :: RuleMatches(rule, path, directory) ==> RuleMatches(rule, front + path, directory)
  {
    forall directory | RuleMatches(rule, path, directory) ensures RuleMatches(rule, front + path, directory) {
      var k :| 0 < k <= |path| && FitsAt(rule, path, directory, k);
      assert (front + path)[|front| + k - 1] == path[k - 1];
      assert FitsAt(rule, front + path, directory, |front| + k);
    }
    if name :| name in path && Matches(rule.pattern, name, 0, 0) {
      var i :| 0 <= i < |path| && path[i] == name;
      assert FitsAt(rule, path, true, i + 1);
    }
  }

  /**
   A rule for directories matches a path that is not one exactly when it matches the directory that
   holds it; for any other rule it makes no difference whether the path is a directory.
   */
  lemma DirectoryRule(rule: Rule, path: Components)
    requires path != []
    ensures rule.directoryOnly ==>
      (RuleMatches(rule, path, false) <==> RuleMatches(rule, path[..|path| - 1], true))
    ensures !rule.directoryOnly ==> (RuleMatches(rule, path, false) <==> RuleMatches(rule, path, true))
  {
    var above := path[..|path| - 1];
    if rule.directoryOnly {
      forall k | 0 < k < |path| ensures FitsAt(rule, path, false, k) <==> FitsAt(rule, above, true, k) {
        assert above[..k] == path[..k];
      }
    } else {
      assert forall k :: 0 < k <= |path| ==> (FitsAt(rule, path, false, k) <==> FitsAt(rule, path, true, k));
    }
  }

  /** The rules, each with the path as that rule sees it (nothing outside its base). */
  datatype Sighting = Sighting(rule: Rule, path: Option<Components>)

  predicate Applies(s: Sighting, directory: bool) {
    s.path.Some? && RuleMatches(s.rule, s.path.value, directory)
  }

  /** The last rule that applies, if any, is not negated. */
  predicate Ignored(rules: seq<Sighting>, directory: bool) {
    exists i :: 0 <= i < |rules| && Applies(rules[i], directory) && !rules[i].rule.negated
                && forall j :: i < j < |rules| ==> !Applies(rules[j], directory)
  }

  /** GitIgnore::ignored: a fold over the rules that keeps the verdict of the last one that applies. */
  method IsIgnored(rules: seq<Sighting>, directory: bool) returns (ignored: bool)
    ensures ignored == Ignored(rules, directory)
  {
    ignored := false;
    for n := 0 to |rules|
      invariant ignored == Ignored(rules[..n], directory)
    {
      var applies := false;
      if rules[n].path.Some? {
        applies := MatchRule(rules[n].rule, rules[n].path.value, directory);
      }
      LastRuleDecides(rules[..n], rules[n], directory);
      assert rules[..n + 1] == rules[..n] + [rules[n]];
      if applies {
        ignored := !rules[n].rule.negated;
      }
    }
    assert rules[..|rules|] == rules;
  }

  /** A new last rule decides when it applies and changes nothing when it does not. */
  lemma LastRuleDecides(rules: seq<Sighting>, last: Sighting, directory: bool)
    ensures Ignored(rules + [last], directory) <==>
      if Applies(last, directory) then !last.rule.negated else Ignored(rules, directory)
  {
    var all := rules + [last];
    assert all[|rules|] == last && forall i :: 0 <= i < |rules| ==> all[i] == rules[i];
    if Applies(last, directory) {
      assert Applies(all[|rules|], directory);
    } else if Ignored(rules, directory) {
      var i :| 0 <= i < |rules| && Applies(rules[i], directory) && !rules[i].rule.negated
               && forall j :: i < j < |rules| ==> !Applies(rules[j], directory);
      assert Applies(all[i], directory);
    }
  }

  /** A rule that matches a directory matches everything below it. */
  lemma RuleCoversBelow(rule: Rule, path: Components, more: Components, directory: bool)
    requires RuleMatches(rule, path, true) && more != []
    ensures RuleMatches(rule, path + more, directory)
  {
    var k :| 0 < k <= |path| && FitsAt(rule, path, true, k);
    assert (path + more)[..k] == path[..k];
    assert FitsAt(rule, path + more, directory, k);
  }

  /** The same rules, looking at something below the path they looked at. */
  function Below(rules: seq<Sighting>, more: Components): seq<Sighting> {
    seq(|rules|, i requires 0 <= i < |rules| =>
      rules[i].(path := if rules[i].path.Some? then Some(rules[i].path.value + more) else None))
  }

  /** Some negated rule applies and no positive rule after it does. */
  predicate Reinstated(rules: seq<Sighting>, directory: bool) {
    exists j :: 0 <= j < |rules| && Applies(rules[j], directory) && rules[j].rule.negated
                && forall k :: j < k < |rules| && Applies(rules[k], directory) ==> rules[k].rule.negated
  }

  /** Once some rule applies, a path is ignored exactly when no negated rule has the last word. */
  lemma {:induction false} LastWord(rules: seq<Sighting>, directory: bool, i: nat)
    requires i < |rules| && Applies(rules[i], directory)
    ensures Ignored(rules, directory) <==> !Reinstated(rules, directory)
    decreases |rules| - i
  {
    if j :| i < j < |rules| && Applies(rules[j], directory) {
      LastWord(rules, directory, j);
    } else {
      assert forall k :: i < k < |rules| ==> !Applies(rules[k], directory);
      if !rules[i].rule.negated {
        assert Ignored(rules, directory);
      } else {
        assert Reinstated(rules, directory);
      }
    }
  }

  lemma AppliesBelow(rules: seq<Sighting>, more: Components, directory: bool, i: nat)
    requires i < |rules| && Applies(rules[i], true) && more != []
    ensures Applies(Below(rules, more)[i], directory)
  {
    RuleCoversBelow(rules[i].rule, rules[i].path.value, more, directory);
  }

  /**
   Exactly when a path below an ignored directory is ignored too: unless a negated rule applies to
   it and no later positive rule does. What applied to the directory applies below it, so only rules
   after the one that ignored the directory can do that.
   */
  lemma BelowIgnoredDirectory(rules: seq<Sighting>, more: Components, directory: bool)
    requires Ignored(rules, true) && more != []
    ensures Ignored(Below(rules, more), directory) <==> !Reinstated(Below(rules, more), directory)
    ensures forall i, j :: 0 <= j <= i < |rules| && Applies(rules[i], true) && !rules[i].rule.negated ==>
      !(rules[j].rule.negated && Applies(Below(rules, more)[j], directory)
        && forall k :: j < k < |rules| && Applies(Below(rules, more)[k], directory) ==> rules[k].rule.negated)
  {
    var below := Below(rules, more);
    forall i | 0 <= i < |rules| && Applies(rules[i], true) ensures Applies(below[i], directory) {
      AppliesBelow(rules, more, directory, i);
    }
    var i :| 0 <= i < |rules| && Applies(rules[i], true);
    LastWord(below, directory, i);
  }

  /**
   A rule ignores a directory and no rule after it is negated: then everything below is ignored,
   whatever came before it.
   */
  lemma IgnoredDirectoryCoversBelow(rules: seq<Sighting>, i: nat, more: Components, directory: bool)
    requires i < |rules| && Applies(rules[i], true) && more != []
    requires forall j :: i <= j < |rules| ==> !rules[j].rule.negated
    ensures Ignored(Below(rules, more), directory)
  {
    var below := Below(rules, more);
    AppliesBelow(rules, more, directory, i);
    LastWord(below, directory, i);
    assert forall j :: 0 <= j < |rules| ==> below[j].rule == rules[j].rule;
  }

  /**
   Such a rule exists: a later negated rule that does not touch the directory itself brings back a
   file below it.
   */
  lemma NegationReachesBelow()
    ensures var rules := [Sighting(Rule("a", false, false, false), Some(["a"])),
                          Sighting(Rule("b", false, true, false), Some(["a"]))];
      Ignored(rules, true) && !Ignored(Below(rules, ["b"]), false)
  {
    var first, second := Rule("a", false, false, false), Rule("b", false, true, false);
    var rules := [Sighting(first, Some(["a"])), Sighting(second, Some(["a"]))];
    assert Matches("a", "a", 1, 1) && Matches("b", "b", 1, 1);
    assert FitsAt(first, ["a"], true, 1) && !FitsAt(second, ["a"], true, 1);
    assert Applies(rules[0], true) && !Applies(rules[1], true);
    var below := Below(rules, ["b"]);
    assert ["a"] + ["b"] == ["a", "b"];
    assert below[1] == Sighting(second, Some(["a", "b"]));
    assert FitsAt(second, ["a", "b"], false, 2);
    assert Applies(below[1], false);
  }
}
