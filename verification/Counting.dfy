/**
 * Counting admissions along a run, and the exchange argument both log-based and
 * bucket-based limiters need: a run that is never behind when it refuses is never behind.
 */
module Counting {

  /** How many of the flags in positions lo..hi are set. */
  function Count(flags: seq<bool>, lo: nat, hi: nat): nat
    requires lo <= hi <= |flags|
    decreases hi
  {
    if lo == hi then 0
    else Count(flags, lo, hi - 1) + if flags[hi - 1] then 1 else 0
  }

  lemma {:induction false} CountSplit(flags: seq<bool>, lo: nat, mid: nat, hi: nat)
    requires lo <= mid <= hi <= |flags|
    ensures Count(flags, lo, hi) == Count(flags, lo, mid) + Count(flags, mid, hi)
    decreases hi
  {
    if mid < hi { CountSplit(flags, lo, mid, hi - 1); }
  }

  lemma {:induction false} AllCounted(flags: seq<bool>, lo: nat, hi: nat)
    requires lo <= hi <= |flags| && forall j :: lo <= j < hi ==> flags[j]
    ensures Count(flags, lo, hi) == hi - lo
    decreases hi
  {
    if lo < hi { AllCounted(flags, lo, hi - 1); }
  }

  lemma {:induction false} CountIsCardinality(flags: seq<bool>, lo: nat, hi: nat)
    requires lo <= hi <= |flags|
    ensures Count(flags, lo, hi) == |set j | lo <= j < hi && flags[j]|
    decreases hi
  {
    if lo < hi {
      CountIsCardinality(flags, lo, hi - 1);
      var before := set j | lo <= j < hi - 1 && flags[j];
      var all := set j | lo <= j < hi && flags[j];
      assert all == before + if flags[hi - 1] then {hi - 1} else {};
    }
  }

  /** Whenever `picks` takes a call that `greedy` refuses, some suffix of the past holds strictly more of `greedy`. */
  ghost predicate NeverBehindOnRefusal(greedy: seq<bool>, picks: seq<bool>)
    requires |greedy| == |picks|
  {
    forall n :: 0 <= n < |greedy| && picks[n] && !greedy[n] ==>
      exists k :: 0 <= k <= n && Count(picks, k, n) + 1 <= Count(greedy, k, n)
  }

  lemma {:induction false} Domination(greedy: seq<bool>, picks: seq<bool>, n: nat)
    requires |greedy| == |picks| && n <= |greedy|
    requires NeverBehindOnRefusal(greedy, picks)
    ensures Count(picks, 0, n) <= Count(greedy, 0, n)
    decreases n
  {
    if n > 0 {
      Domination(greedy, picks, n - 1);
      if picks[n - 1] && !greedy[n - 1] {
        var k: nat :| k <= n - 1 && Count(picks, k, n - 1) + 1 <= Count(greedy, k, n - 1);
        Domination(greedy, picks, k);
        CountSplit(picks, 0, k, n - 1);
        CountSplit(greedy, 0, k, n - 1);
      }
    }
  }

  /** A run that has reached i admissions made its i-th one at some definite earlier call. */
  lemma {:induction false} IthAdmission(flags: seq<bool>, i: nat, n: nat) returns (q: nat)
    requires n <= |flags| && 0 < i <= Count(flags, 0, n)
    ensures q < n && flags[q] && Count(flags, 0, q + 1) == i
    decreases n
  {
    if Count(flags, 0, n - 1) >= i {
      q := IthAdmission(flags, i, n - 1);
    } else {
      q := n - 1;
    }
  }

  /** An injective image has as many elements as its source. */
  lemma {:induction false} ImageCardinality<A, B>(source: set<A>, image: set<B>, f: map<A, B>)
    requires source <= f.Keys
    requires forall a :: a in source ==> f[a] in image
    requires forall b :: b in image ==> exists a :: a in source && f[a] == b
    requires forall a, a' :: a in source && a' in source && f[a] == f[a'] ==> a == a'
    ensures |source| == |image|
  {
    if source == {} {
      assert image == {};
    } else {
      var a :| a in source;
      ImageCardinality(source - {a}, image - {f[a]}, f);
    }
  }

  lemma {:induction false} SubsetCardinality<T>(small: set<T>, big: set<T>)
    requires small <= big
    ensures |small| <= |big|
  {
    if small != {} {
      var x :| x in small;
      SubsetCardinality(small - {x}, big - {x});
    }
  }

  /** A covered set has no more elements than what covers it. */
  lemma {:induction false} ImageNoLarger<A, B>(source: set<A>, image: set<B>, f: map<A, B>)
    requires source <= f.Keys
    requires forall b :: b in image ==> exists a :: a in source && f[a] == b
    ensures |image| <= |source|
  {
    if image != {} {
      var b :| b in image;
      var a :| a in source && f[a] == b;
      ImageNoLarger(source - {a}, image - {b}, f);
    }
  }
}
