/** std::string comparison: lexicographic by character code. */
module TextOrder {

  predicate TextLeq(a: string, b: string) {
    || a == []
    || (b != [] && (a[0] < b[0] || (a[0] == b[0] && TextLeq(a[1..], b[1..]))))
  }

  lemma {:induction false} TextLeqTotal(a: string, b: string)
    ensures TextLeq(a, b) || TextLeq(b, a)
    ensures TextLeq(a, a)
    decreases |a|
  {
    if a != [] {
      TextLeqTotal(a[1..], if b == [] then b else b[1..]);
    }
  }

  lemma {:induction false} TextLeqAntisymmetric(a: string, b: string)
    requires TextLeq(a, b) && TextLeq(b, a)
    ensures a == b
  {
    if a != [] && b != [] {
      TextLeqAntisymmetric(a[1..], b[1..]);
      assert a == [a[0]] + a[1..] && b == [b[0]] + b[1..];
    }
  }

  lemma {:induction false} TextLeqTransitive(a: string, b: string, c: string)
    requires TextLeq(a, b) && TextLeq(b, c)
    ensures TextLeq(a, c)
  {
    if a != [] && b != [] && c != [] && a[0] == b[0] == c[0] {
      TextLeqTransitive(a[1..], b[1..], c[1..]);
    }
  }

  /** A prefix is below everything it begins. */
  lemma {:induction false} PrefixIsBelow(prefix: string, text: string)
    requires prefix <= text
    ensures TextLeq(prefix, text)
  {
    if prefix != [] {
      PrefixIsBelow(prefix[1..], text[1..]);
    }
  }

  /** The texts with a given prefix form an interval that starts at the prefix itself. */
  lemma {:induction false} PrefixInterval(prefix: string, between: string, text: string)
    requires prefix <= text
    requires TextLeq(prefix, between) && TextLeq(between, text)
    ensures prefix <= between
  {
    if prefix != [] {
      PrefixInterval(prefix[1..], between[1..], text[1..]);
      assert prefix == [prefix[0]] + prefix[1..];
      assert between == [between[0]] + between[1..];
    }
  }
}
