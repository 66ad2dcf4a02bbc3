/**
 * The promise a sliding-window limiter makes, stated on timestamps and admission flags alone,
 * and the fact that deciding by the window is the best way to keep it.
 */
module Windows {
  import opened Counting

  /** The flagged calls among the first n with a timestamp in (from, to]. */
  function PickedIn(times: seq<int>, picks: seq<bool>, n: nat, from: int, to: int): set<int>
    requires |picks| == |times| && n <= |times|
  {
    set j | 0 <= j < n && picks[j] && from < times[j] <= to
  }

  ghost predicate Nondecreasing(times: seq<int>) {
    forall i, j :: 0 <= i <= j < |times| ==> times[i] <= times[j]
  }

  /** Never more than `limit` picks with a timestamp in (t - window, t], at any pick's timestamp t. */
  ghost predicate KeepsPromise(times: seq<int>, picks: seq<bool>, window: int, limit: int)
    requires |picks| == |times|
  {
    forall n :: 0 <= n < |times| && picks[n] ==>
      |PickedIn(times, picks, n + 1, times[n] - window, times[n])| <= limit
  }

  /** Call n is flagged exactly when fewer than `limit` earlier flagged calls lie in its window. */
  ghost predicate DecidesCall(times: seq<int>, flags: seq<bool>, window: int, limit: int, n: nat)
    requires n < |flags| == |times|
  {
    flags[n] <==> |PickedIn(times, flags, n, times[n] - window, times[n])| < limit
  }

  ghost predicate DecidesByWindow(times: seq<int>, flags: seq<bool>, window: int, limit: int)
    requires |flags| == |times|
  {
    forall n :: 0 <= n < |times| ==> DecidesCall(times, flags, window, limit, n)
  }

  /** The first call inside the window that ends at call n. */
  function WindowStart(times: seq<int>, window: int, n: nat, k: nat): (m: nat)
    requires k <= n < |times|
    ensures m <= k
    ensures forall j :: m <= j < k ==> times[n] - window < times[j]
    ensures m > 0 ==> times[m - 1] <= times[n] - window
  {
    if k > 0 && times[n] - window < times[k - 1] then WindowStart(times, window, n, k - 1) else k
  }

  /** On ordered timestamps the picks of a window are counted from its first call on. */
  lemma PickedIsCount(times: seq<int>, picks: seq<bool>, window: int, m: nat, n: nat, hi: nat)
    requires |picks| == |times| && Nondecreasing(times)
    requires m <= n < |times| && n <= hi <= n + 1
    requires m == WindowStart(times, window, n, n) && window > 0
    ensures |PickedIn(times, picks, hi, times[n] - window, times[n])| == Count(picks, m, hi)
  {
    CountIsCardinality(picks, m, hi);
    assert forall j :: 0 <= j < m ==> times[j] <= times[m - 1];
    assert PickedIn(times, picks, hi, times[n] - window, times[n]) == set j | m <= j < hi && picks[j];
  }

  /** One call more is at most one pick more. */
  lemma OnePickMore(times: seq<int>, picks: seq<bool>, n: nat, from: int, to: int)
    requires |picks| == |times| && n < |times|
    ensures |PickedIn(times, picks, n + 1, from, to)| <= |PickedIn(times, picks, n, from, to)| + 1
  {
    SubsetCardinality(PickedIn(times, picks, n + 1, from, to), PickedIn(times, picks, n, from, to) + {n});
  }

  lemma DecidingKeepsPromise(times: seq<int>, flags: seq<bool>, window: int, limit: int)
    requires |flags| == |times| && DecidesByWindow(times, flags, window, limit)
    ensures KeepsPromise(times, flags, window, limit)
  {
    hide PickedIn;
    forall n | 0 <= n < |times| && flags[n]
      ensures |PickedIn(times, flags, n + 1, times[n] - window, times[n])| <= limit
    {
      assert DecidesCall(times, flags, window, limit, n);
      OnePickMore(times, flags, n, times[n] - window, times[n]);
    }
  }

  /**
   * At a refusal that another choice picks, the window's calls hold more admissions than that choice
   * has picks there.
   */
  lemma AheadAtRefusal(times: seq<int>, flags: seq<bool>, picks: seq<bool>, window: int, limit: int, n: nat)
    returns (m: nat)
    requires |flags| == |picks| == |times| && Nondecreasing(times) && window > 0
    requires DecidesByWindow(times, flags, window, limit) && KeepsPromise(times, picks, window, limit)
    requires n < |times| && picks[n] && !flags[n]
    ensures m <= n && Count(picks, m, n) + 1 <= Count(flags, m, n)
  {
    m := WindowStart(times, window, n, n);
    PickedIsCount(times, flags, window, m, n, n);
    PickedIsCount(times, picks, window, m, n, n + 1);
    hide PickedIn, Nondecreasing;
    assert DecidesCall(times, flags, window, limit, n);
  }

  lemma NeverBehind(times: seq<int>, flags: seq<bool>, picks: seq<bool>, window: int, limit: int)
    requires |flags| == |picks| == |times| && Nondecreasing(times) && window > 0
    requires DecidesByWindow(times, flags, window, limit) && KeepsPromise(times, picks, window, limit)
    ensures NeverBehindOnRefusal(flags, picks)
  {
    hide DecidesByWindow, KeepsPromise, Nondecreasing;
    forall n | 0 <= n < |flags| && picks[n] && !flags[n]
      ensures exists k :: 0 <= k <= n && Count(picks, k, n) + 1 <= Count(flags, k, n)
    {
      var m := AheadAtRefusal(times, flags, picks, window, limit, n);
    }
  }

  /**
   * After any prefix of the arrivals, deciding by the window has admitted at least as many calls
   * as any other choice that keeps the promise.
   */
  lemma DecidingIsOptimal(times: seq<int>, flags: seq<bool>, picks: seq<bool>, window: int, limit: int, n: nat)
    requires |flags| == |picks| == |times| && Nondecreasing(times) && window > 0
    requires DecidesByWindow(times, flags, window, limit) && KeepsPromise(times, picks, window, limit)
    requires n <= |times|
    ensures Count(picks, 0, n) <= Count(flags, 0, n)
  {
    NeverBehind(times, flags, picks, window, limit);
    Domination(flags, picks, n);
  }

  /** The i-th flagged call comes no later than the i-th pick of any choice that keeps the promise. */
  lemma IthNoLater(times: seq<int>, flags: seq<bool>, picks: seq<bool>, window: int, limit: int, p: nat)
    returns (q: nat)
    requires |flags| == |picks| == |times| && Nondecreasing(times) && window > 0
    requires DecidesByWindow(times, flags, window, limit) && KeepsPromise(times, picks, window, limit)
    requires p < |times| && picks[p]
    ensures q <= p && flags[q] && Count(flags, 0, q + 1) == Count(picks, 0, p + 1)
  {
    DecidingIsOptimal(times, flags, picks, window, limit, p + 1);
    q := IthAdmission(flags, Count(picks, 0, p + 1), p + 1);
  }
}
