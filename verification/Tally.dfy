/** Sums over the values of a finite map, for the byte budgets. */
module Tally {
  ghost function Sum(m: map<string, nat>): nat {
    if m == map[] then 0 else var k :| k in m; m[k] + Sum(m - {k})
  }

  /** The sum does not depend on the order in which a loop visits the entries. */
  lemma {:induction false} SumRemove(m: map<string, nat>, k: string)
    requires k in m
    ensures Sum(m) == m[k] + Sum(m - {k})
    decreases |m|
  {
    var first :| first in m && Sum(m) == m[first] + Sum(m - {first});
    if first != k {
      var rest := m - {first};
      assert rest.Keys == m.Keys - {first} && |rest.Keys| < |m.Keys|;
      SumRemove(rest, k);
      var other := m - {k};
      assert other.Keys == m.Keys - {k} && |other.Keys| < |m.Keys|;
      SumRemove(other, first);
      assert rest - {k} == other - {first};
    }
  }

  /** What a loop that takes one entry at a time leaves behind. */
  lemma TakeOne(m: map<string, nat>, k: string)
    requires k in m
    ensures Sum(m) == m[k] + Sum(m - {k})
    ensures (m - {k}).Keys == m.Keys - {k} && |(m - {k}).Keys| == |m.Keys| - 1
  {
    SumRemove(m, k);
    assert (m - {k}).Keys == m.Keys - {k};
  }

  lemma SumInsert(m: map<string, nat>, k: string, v: nat)
    requires k !in m
    ensures Sum(m[k := v]) == Sum(m) + v
  {
    SumRemove(m[k := v], k);
    assert m[k := v] - {k} == m;
  }

  /** Dropping entries never raises the sum. */
  lemma {:induction false} SumShrinks(smaller: map<string, nat>, m: map<string, nat>)
    requires forall k | k in smaller :: k in m && m[k] == smaller[k]
    ensures Sum(smaller) <= Sum(m)
    decreases |smaller|
  {
    if smaller != map[] {
      var k :| k in smaller;
      SumRemove(smaller, k);
      SumRemove(m, k);
      assert (smaller - {k}).Keys == smaller.Keys - {k} && |(smaller - {k}).Keys| < |smaller.Keys|;
      SumShrinks(smaller - {k}, m - {k});
    }
  }

  lemma OneMoreTerm(n: nat, bound: nat)
    ensures n * bound + bound == (n + 1) * bound
  {
  }

  lemma {:induction false} SumBound(m: map<string, nat>, bound: nat)
    requires forall k | k in m :: m[k] <= bound
    ensures Sum(m) <= |m| * bound
    decreases |m|
  {
    if m != map[] {
      var k :| k in m;
      SumRemove(m, k);
      assert (m - {k}).Keys == m.Keys - {k} && |(m - {k}).Keys| == |m.Keys| - 1;
      SumBound(m - {k}, bound);
      OneMoreTerm(|m| - 1, bound);
    }
  }
}
