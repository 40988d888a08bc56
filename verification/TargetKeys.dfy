/**
 Target paths and the keys the receive planner compares. A path is its list of components; its
 key joins them with '/'. An absolute path starts with an empty component.
 */
module TargetKeys {
  import opened Prelude
  import opened TextOrder

  predicate IsName(component: string) {
    '/' !in component
  }

  type Path = p: seq<string> | p != [] && forall i :: 0 <= i < |p| ==> IsName(p[i]) witness [""]

  function Key(path: Path): string {
    if |path| == 1 then path[0] else path[0] + "/" + Key(path[1..])
  }

  /** The source folds the key, not the components. */
  function LowerChar(c: char): char {
    if 'A' <= c <= 'Z' then (c as int + 32) as char else c
  }

  function Lower(text: string): (lower: string)
    ensures |lower| == |text| && forall i :: 0 <= i < |text| ==> lower[i] == LowerChar(text[i])
  {
    seq(|text|, i requires 0 <= i < |text| => LowerChar(text[i]))
  }

  /** Equal, or the two cases of one ASCII letter. */
  predicate SameLetter(a: char, b: char) {
    a == b || ('A' <= a <= 'Z' && b as int == a as int + 32) || ('A' <= b <= 'Z' && a as int == b as int + 32)
  }

  /** Folding identifies exactly the texts that differ in the case of ASCII letters only. */
  lemma LowerExactly(a: string, b: string)
    ensures Lower(a) == Lower(b) <==> |a| == |b| && forall i :: 0 <= i < |a| ==> SameLetter(a[i], b[i])
  {
    if |a| == |b| {
      assert forall i :: 0 <= i < |a| ==> (Lower(a)[i] == Lower(b)[i] <==> SameLetter(a[i], b[i]));
    }
  }

  function TargetKey(path: Path, fold: bool): string {
    if fold then Lower(Key(path)) else Key(path)
  }

  /** The path a key stands for: the path itself, or the one with every component in lower case. */
  function Norm(path: Path, fold: bool): (norm: Path)
    ensures |norm| == |path|
  {
    if fold then
      var lower := seq(|path|, i requires 0 <= i < |path| => Lower(path[i]));
      assert forall i :: 0 <= i < |path| ==> IsName(lower[i]);
      lower
    else path
  }

  lemma LowerConcat(a: string, b: string)
    ensures Lower(a + b) == Lower(a) + Lower(b)
  {
  }

  lemma {:induction false} TargetKeyIsKey(path: Path, fold: bool)
    ensures TargetKey(path, fold) == Key(Norm(path, fold))
    decreases |path|
  {
    if fold {
      if |path| > 1 {
        TargetKeyIsKey(path[1..], fold);
        LowerConcat(path[0] + "/", Key(path[1..]));
        LowerConcat(path[0], "/");
        assert Norm(path, fold)[1..] == Norm(path[1..], fold);
      }
    }
  }

  /** The first '/' cuts a text in one way only. */
  lemma CutOnce(x: string, s: string, y: string, t: string)
    requires IsName(x) && IsName(y) && x + "/" + s == y + "/" + t
    ensures x == y && s == t
  {
    var whole := x + "/" + s;
    assert whole[|x|] == '/' && whole[|y|] == '/';
    assert forall i :: 0 <= i < |x| ==> whole[i] == x[i];
    assert forall i :: 0 <= i < |y| ==> whole[i] == y[i];
    assert |x| == |y|;
    assert x == whole[..|x|] && y == whole[..|y|];
    assert s == whole[|x| + 1..] && t == whole[|y| + 1..];
  }

  lemma {:induction false} KeyInjective(a: Path, b: Path)
    requires Key(a) == Key(b)
    ensures a == b
    decreases |a|
  {
    assert |a| > 1 ==> '/' in Key(a);
    assert |b| > 1 ==> '/' in Key(b);
    if |a| > 1 && |b| > 1 {
      CutOnce(a[0], Key(a[1..]), b[0], Key(b[1..]));
      KeyInjective(a[1..], b[1..]);
      assert a == [a[0]] + a[1..] && b == [b[0]] + b[1..];
    }
  }

  predicate KeyIsParentOf(parent: string, child: string) {
    |child| > |parent| && parent <= child && child[|parent|] == '/'
  }

  /** A key is a parent of another exactly when its path is a proper ancestor. */
  lemma {:induction false} ParentKeys(a: Path, b: Path)
    ensures KeyIsParentOf(Key(a), Key(b)) <==> a < b
    decreases |a|
  {
    assert |b| == 1 ==> IsName(Key(b));
    if |b| > 1 {
      var rest := Key(b[1..]);
      assert b == [b[0]] + b[1..];
      if |a| == 1 {
        if KeyIsParentOf(Key(a), Key(b)) {
          var tail := Key(b)[|a[0]| + 1..];
          assert Key(b) == a[0] + "/" + tail;
          CutOnce(a[0], tail, b[0], rest);
        }
      } else {
        ParentKeys(a[1..], b[1..]);
        assert a == [a[0]] + a[1..];
        if KeyIsParentOf(Key(a), Key(b)) {
          var tail := Key(b)[|a[0]| + 1..];
          assert Key(b)[..|Key(a)|] == Key(a);
          assert Key(b) == a[0] + "/" + tail;
          CutOnce(a[0], tail, b[0], rest);
          assert rest[..|Key(a[1..])|] == Key(b)[|a[0]| + 1..|Key(a)|] == Key(a[1..]);
          assert rest[|Key(a[1..])|] == Key(b)[|Key(a)|];
        }
      }
    } else if |a| > 1 {
      assert '/' in Key(a);
    }
  }

  // ---------------------------------------------------------------- std::set::lower_bound

  ghost predicate IsLowerBound(keys: set<string>, bound: string, r: Option<string>) {
    && (r.None? ==> forall key :: key in keys ==> !TextLeq(bound, key))
    && (r.Some? ==> r.value in keys && TextLeq(bound, r.value)
                    && forall key :: key in keys && TextLeq(bound, key) ==> TextLeq(r.value, key))
  }

  lemma {:induction false} LowerBoundExists(keys: set<string>, bound: string) returns (r: Option<string>)
    ensures IsLowerBound(keys, bound, r)
    decreases |keys|
  {
    if keys == {} {
      r := None;
    } else {
      var key :| key in keys;
      r := LowerBoundExists(keys - {key}, bound);
      TextLeqTotal(bound, key);
      if TextLeq(bound, key) {
        if r.None? {
          TextLeqTotal(key, key);
          r := Some(key);
        } else {
          TextLeqTotal(r.value, key);
          if TextLeq(key, r.value) {
            forall other | other in keys && TextLeq(bound, other) ensures TextLeq(key, other) {
              if other != key {
                TextLeqTransitive(key, r.value, other);
              } else {
                TextLeqTotal(key, key);
              }
            }
            r := Some(key);
          }
        }
      }
    }
  }

  /** Looking only at the first key not below key + "/" finds a descendant whenever there is one. */
  lemma LowerBoundSuffices(keys: set<string>, key: string, first: Option<string>)
    requires IsLowerBound(keys, key + "/", first)
    ensures (exists child :: child in keys && KeyIsParentOf(key, child))
            <==> (first.Some? && KeyIsParentOf(key, first.value))
  {
    var bound := key + "/";
    forall child | child in keys && KeyIsParentOf(key, child)
      ensures first.Some? && KeyIsParentOf(key, first.value)
    {
      assert child[..|bound|] == bound;
      PrefixIsBelow(bound, child);
      PrefixInterval(bound, first.value, child);
    }
  }

  /** reserved_targets.lower_bound */
  method LowerBound(keys: set<string>, bound: string) returns (r: Option<string>)
    ensures IsLowerBound(keys, bound, r)
  {
    ghost var least := LowerBoundExists(keys, bound);
    if exists key :: key in keys && TextLeq(bound, key) {
      var key :| key in keys && TextLeq(bound, key)
                 && forall other :: other in keys && TextLeq(bound, other) ==> TextLeq(key, other);
      return Some(key);
    }
    return None;
  }
}
