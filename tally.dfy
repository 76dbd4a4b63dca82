/**
 * Counting how often a status occurs in a list of statuses. Every slice of the
 * store keeps one counter per status; the counters are meant to equal these
 * fresh recounts.
 */
module Tally {

  /** Number of positions of `xs` that hold `s`. It is counted from the back, so
      that a loop walking the list from the front extends it one element at a time. */
  function Occurrences<S(==)>(xs: seq<S>, s: S): (n: nat)
    ensures n <= |xs|
    ensures n == 0 <==> s !in xs
  {
    if xs == [] then 0
    else Occurrences(xs[..|xs| - 1], s) + (if xs[|xs| - 1] == s then 1 else 0)
  }

  /** 1 when `b` holds, 0 otherwise. */
  function Indicator(b: bool): nat {
    if b then 1 else 0
  }

  /** Replacing one element moves one unit from the old value's count to the new value's. */
  lemma {:induction false} OccurrencesUpdate<S>(xs: seq<S>, k: nat, v: S, s: S)
    requires k < |xs|
    ensures Occurrences(xs[k := v], s)
         == Occurrences(xs, s) - Indicator(xs[k] == s) + Indicator(v == s)
  {
    var n := |xs|;
    if k < n - 1 {
      assert xs[k := v][..n - 1] == xs[..n - 1][k := v];
      OccurrencesUpdate(xs[..n - 1], k, v, s);
    } else {
      assert xs[k := v][..n - 1] == xs[..n - 1];
    }
  }

  /** The counts of the values listed in `ss`, added up. */
  function SumOfOccurrences<S(==)>(xs: seq<S>, ss: seq<S>): nat {
    if ss == [] then 0 else Occurrences(xs, ss[0]) + SumOfOccurrences(xs, ss[1..])
  }

  predicate Distinct<S(==)>(ss: seq<S>) {
    forall i, j :: 0 <= i < j < |ss| ==> ss[i] != ss[j]
  }

  /** A value occurs at most once in a list of distinct values, and exactly once when it is there. */
  lemma {:induction false} OccurrencesInDistinct<S>(ss: seq<S>, x: S)
    requires Distinct(ss)
    ensures Occurrences(ss, x) == Indicator(x in ss)
  {
    if ss != [] {
      var n := |ss|;
      OccurrencesInDistinct(ss[..n - 1], x);
      assert ss == ss[..n - 1] + [ss[n - 1]];
      if ss[n - 1] == x {
        assert x !in ss[..n - 1];
      }
    }
  }

  /** Adding one element to the back adds to the sum the number of times it is listed in `ss`. */
  lemma {:induction false} SumOfOccurrencesSnoc<S>(xs: seq<S>, x: S, ss: seq<S>)
    ensures SumOfOccurrences(xs + [x], ss) == SumOfOccurrences(xs, ss) + Occurrences(ss, x)
  {
    assert (xs + [x])[..|xs|] == xs;
    if ss != [] {
      SumOfOccurrencesSnoc(xs, x, ss[1..]);
      OccurrencesOfCons(ss, x);
    }
  }

  /** Counting in a non-empty list is counting its head and then its tail. */
  lemma {:induction false} OccurrencesOfCons<S>(ss: seq<S>, x: S)
    requires ss != []
    ensures Occurrences(ss, x) == Indicator(ss[0] == x) + Occurrences(ss[1..], x)
  {
    var n := |ss|;
    if n > 1 {
      OccurrencesOfCons(ss[..n - 1], x);
      assert ss[..n - 1][1..] == ss[1..][..n - 2];
    } else {
      assert ss[1..] == [];
    }
  }

  /**
   * Counters for distinct statuses never add up to more than the list length,
   * and they add up to exactly the length when every element is one of them.
   */
  lemma {:induction false} SumOfDistinctOccurrences<S>(xs: seq<S>, ss: seq<S>)
    requires Distinct(ss)
    ensures SumOfOccurrences(xs, ss) <= |xs|
    ensures (forall i :: 0 <= i < |xs| ==> xs[i] in ss) ==> SumOfOccurrences(xs, ss) == |xs|
  {
    if xs == [] {
      SumOfNothing(ss);
    } else {
      var n := |xs|;
      var init, last := xs[..n - 1], xs[n - 1];
      assert xs == init + [last];
      SumOfDistinctOccurrences(init, ss);
      SumOfOccurrencesSnoc(init, last, ss);
      OccurrencesInDistinct(ss, last);
    }
  }

  lemma {:induction false} SumOfNothing<S>(ss: seq<S>)
    ensures SumOfOccurrences([], ss) == 0
  {
    if ss != [] {
      SumOfNothing(ss[1..]);
    }
  }
}
