/**
 The plain meaning of "how far is the file complete": a log of written byte ranges, the set of
 offsets they cover, and the least offset they leave open. The receiver's interval map
 (MuxReceive) is proved against these definitions.
 */
module WrittenRanges {
  import opened Prelude

  datatype Range = Range(start: nat, size: nat) {
    predicate Covers(x: int) {
      start <= x < start + size
    }
  }

  ghost predicate Covered(log: seq<Range>, x: int) {
    exists r :: r in log && r.Covers(x)
  }

  /** `p` is the least offset at or above `from` that `log` does not cover. */
  ghost predicate IsLeastOpen(from: nat, log: seq<Range>, p: nat) {
    && from <= p
    && !Covered(log, p)
    && forall x :: from <= x < p ==> Covered(log, x)
  }

  function EndOf(log: seq<Range>): (end: nat)
    ensures forall r :: r in log ==> r.start + r.size <= end
  {
    if log == [] then 0 else Max(log[0].start + log[0].size, EndOf(log[1..]))
  }

  ghost function LeastOpen(from: nat, log: seq<Range>): (p: nat)
    ensures IsLeastOpen(from, log, p)
    decreases EndOf(log) - from
  {
    if Covered(log, from) then LeastOpen(from + 1, log) else from
  }

  lemma LeastOpenUnique(from: nat, log: seq<Range>, p: nat)
    requires IsLeastOpen(from, log, p)
    ensures p == LeastOpen(from, log)
  {
    var q := LeastOpen(from, log);
    assert q < p ==> Covered(log, q);
    assert p < q ==> Covered(log, p);
  }

  /** Arrival order and repetition do not matter: only the set of ranges does. */
  lemma LeastOpenOrderIndependent(from: nat, log: seq<Range>, other: seq<Range>)
    requires forall r :: r in log <==> r in other
    ensures LeastOpen(from, log) == LeastOpen(from, other)
  {
    assert forall x :: Covered(log, x) <==> Covered(other, x);
    LeastOpenUnique(from, other, LeastOpen(from, log));
  }

  /** The same for two arrival orders of one collection of frames. */
  lemma LeastOpenPermutation(from: nat, log: seq<Range>, other: seq<Range>)
    requires multiset(log) == multiset(other)
    ensures LeastOpen(from, log) == LeastOpen(from, other)
  {
    forall r ensures r in log <==> r in other {
      assert r in log <==> r in multiset(log);
      assert r in other <==> r in multiset(other);
    }
    LeastOpenOrderIndependent(from, log, other);
  }

  lemma CoveredAppend(log: seq<Range>, r: Range, x: int)
    ensures Covered(log + [r], x) <==> Covered(log, x) || r.Covers(x)
  {
    if Covered(log, x) {
      var s :| s in log && s.Covers(x);
      assert s in log + [r];
    }
    if r.Covers(x) {
      assert r in log + [r];
    }
  }

  function TotalSize(log: seq<Range>): nat {
    if log == [] then 0 else TotalSize(log[..|log| - 1]) + log[|log| - 1].size
  }

  lemma TotalSizeAppend(log: seq<Range>, r: Range)
    ensures TotalSize(log + [r]) == TotalSize(log) + r.size
  {
    assert (log + [r])[..|log|] == log;
  }
}
