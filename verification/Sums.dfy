/** Sums over the values of a finite map, taken in no particular order. */
module Sums {

  ghost function Sum<K>(m: map<K, int>): int
    decreases |m.Keys|
  {
    if m.Keys == {} then 0
    else
      var k :| k in m;
      m[k] + Sum(m - {k})
  }

  /** Any entry may be taken first. */
  lemma {:induction false} SumTake<K>(m: map<K, int>, k: K)
    requires k in m
    ensures Sum(m) == m[k] + Sum(m - {k})
    decreases |m.Keys|
  {
    var first :| first in m && Sum(m) == m[first] + Sum(m - {first});
    if first != k {
      SumTake(m - {first}, k);
      SumTake(m - {k}, first);
      assert m - {first} - {k} == m - {k} - {first};
    }
  }

  lemma SumPut<K>(m: map<K, int>, k: K, v: int)
    ensures Sum(m[k := v]) == Sum(m) + v - if k in m then m[k] else 0
  {
    SumTake(m[k := v], k);
    assert m[k := v] - {k} == m - {k};
    if k in m {
      SumTake(m, k);
    } else {
      assert m - {k} == m;
    }
  }

  function Get<K>(m: map<K, int>, k: K): int {
    if k in m then m[k] else 0
  }

  function Restrict<K>(m: map<K, int>, some: set<K>): map<K, int> {
    map k | k in m && k in some :: m[k]
  }

  lemma RestrictWithout<K>(m: map<K, int>, some: set<K>, k: K)
    ensures Sum(Restrict(m, some)) == (if k in some then Get(m, k) else 0) + Sum(Restrict(m - {k}, some))
  {
    Without(Restrict(m, some), k);
    assert Restrict(m - {k}, some) == Restrict(m, some) - {k};
  }

  /** One map lies below another entry by entry, an absent entry counting as zero, and nothing is negative. */
  ghost predicate Below<K>(before: map<K, int>, after: map<K, int>) {
    before.Keys <= after.Keys && forall k :: k in after ==> 0 <= Get(before, k) <= after[k]
  }

  /**
   * If one map lies below another then so do their sums, and over some of the keys they differ by no
   * more than over all.
   */
  lemma {:induction false} SumsGrow<K>(before: map<K, int>, after: map<K, int>, some: set<K>)
    requires Below(before, after)
    ensures 0 <= Sum(Restrict(after, some)) - Sum(Restrict(before, some)) <= Sum(after) - Sum(before)
    decreases |after.Keys|
  {
    if k :| k in after {
      forall j | j in after - {k} ensures 0 <= Get(before - {k}, j) <= (after - {k})[j] {
        assert j in after && Get(before - {k}, j) == Get(before, j);
      }
      SumsGrow(before - {k}, after - {k}, some);
      Without(after, k);
      Without(before, k);
      RestrictWithout(before, some, k);
      RestrictWithout(after, some, k);
    } else {
      assert after == map[] && before == map[];
      assert Restrict(after, some) == map[] && Restrict(before, some) == map[];
    }
  }

  lemma Without<K>(m: map<K, int>, k: K)
    ensures Sum(m) == Get(m, k) + Sum(m - {k})
  {
    if k in m {
      SumTake(m, k);
    } else {
      assert m - {k} == m;
    }
  }

  lemma {:induction false} AllZero<K>(m: map<K, int>)
    requires forall k :: k in m ==> m[k] == 0
    ensures Sum(m) == 0
    decreases |m.Keys|
  {
    if k :| k in m {
      SumTake(m, k);
      AllZero(m - {k});
    }
  }
}
