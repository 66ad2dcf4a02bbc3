/**
 * The traffic analyzer's loop: at each tick it totals a snapshot of the request counters, and the
 * difference to the total before, divided by the interval, is the next throughput sample.
 */
module Sampling {
  import opened Detector
  import Sums

  function Rate(count: int, interval: real): real
    requires interval > 0.0
  {
    count as real / interval
  }

  class Monitor {
    const analyzer: Analyzer
    const interval: real
    var lastRequestCount: int

    constructor (analyzer: Analyzer, interval: real)
      ensures this.analyzer == analyzer && this.interval == interval && lastRequestCount == 0
    {
      this.analyzer, this.interval, lastRequestCount := analyzer, interval, 0;
    }

    method Tick<K(==)>(snapshot: map<K, int>, sqrt: real -> real) returns (anomalous: bool)
      requires IsSqrt(sqrt) && interval > 0.0
      modifies this, analyzer
      ensures lastRequestCount == Sums.Sum(snapshot)
      ensures var tps := Rate(Sums.Sum(snapshot) - old(lastRequestCount), interval);
        && analyzer.tpsHistory == Retain(old(analyzer.tpsHistory), tps)
        && Flagged(old(analyzer.tpsHistory), tps, anomalous)
    {
      hide Retain, Flagged, Rate;
      var currentTotal := Total(snapshot);
      var diff := currentTotal - lastRequestCount;
      lastRequestCount := currentTotal;
      anomalous := analyzer.AnalyzeTPS(Rate(diff, interval), sqrt);
    }
  }

  /** Add up all counters, in whatever order they come. */
  method Total<K(==)>(snapshot: map<K, int>) returns (total: int)
    ensures total == Sums.Sum(snapshot)
  {
    total := 0;
    var left := snapshot.Keys;
    assert Sums.Restrict(snapshot, left) == snapshot;
    while left != {}
      invariant left <= snapshot.Keys
      invariant total + Sums.Sum(Sums.Restrict(snapshot, left)) == Sums.Sum(snapshot)
    {
      var key :| key in left;
      Sums.Without(Sums.Restrict(snapshot, left), key);
      assert Sums.Restrict(snapshot, left) - {key} == Sums.Restrict(snapshot, left - {key});
      total := total + snapshot[key];
      left := left - {key};
    }
    Sums.AllZero(Sums.Restrict(snapshot, left));
  }

  /** The total after the first n ticks. */
  function Latest(totals: seq<int>, n: nat): int
    requires n <= |totals|
  {
    if n == 0 then 0 else totals[n - 1]
  }

  /** The samples of a run whose ticks found these totals. */
  function Samples(totals: seq<int>, interval: real): (samples: seq<real>)
    requires interval > 0.0
    ensures |samples| == |totals|
  {
    var n := |totals|;
    if n == 0 then []
    else Samples(totals[..n - 1], interval) + [Rate(Latest(totals, n) - Latest(totals, n - 1), interval)]
  }

  /** Samples that come, over their intervals, to a number of requests. */
  predicate Accounts(samples: seq<real>, interval: real, requests: int) {
    Sum(samples) * interval == requests as real
  }

  lemma Undivided(count: int, interval: real)
    requires interval > 0.0
    ensures Rate(count, interval) * interval == count as real
  {
  }

  lemma Distribute(a: real, b: real, c: real)
    ensures (a + b) * c == a * c + b * c
  {
  }

  lemma AccountsMore(samples: seq<real>, interval: real, requests: int, more: int)
    requires interval > 0.0 && Accounts(samples, interval, requests)
    ensures Accounts(samples + [Rate(more, interval)], interval, requests + more)
  {
    hide Rate;
    Undivided(more, interval);
    SumAppend(samples, Rate(more, interval), 0.0);
    Distribute(Sum(samples), Rate(more, interval), interval);
  }

  lemma NoneAccountsForNothing(interval: real)
    ensures Accounts([], interval, 0)
  {
  }

  /** The samples from the k-th on add up to the requests counted since. */
  lemma {:induction false} SamplesTelescope(totals: seq<int>, interval: real, k: nat)
    requires interval > 0.0 && k <= |totals|
    ensures Accounts(Samples(totals, interval)[k..], interval, Latest(totals, |totals|) - Latest(totals, k))
    decreases |totals|
  {
    hide Accounts, Rate;
    var samples, n := Samples(totals, interval), |totals|;
    if k < n {
      var init := totals[..n - 1];
      SamplesTelescope(init, interval, k);
      var more := Latest(totals, n) - Latest(totals, n - 1);
      AccountsMore(Samples(init, interval)[k..], interval, Latest(init, n - 1) - Latest(init, k), more);
      assert samples[k..] == Samples(init, interval)[k..] + [Rate(more, interval)];
    } else {
      NoneAccountsForNothing(interval);
      assert samples[k..] == [];
    }
  }

  /** The retained history accounts for exactly the requests of the last sixty intervals, or of all of them. */
  lemma HistoryMeasuresTraffic(totals: seq<int>, interval: real)
    requires interval > 0.0
    ensures var since := if |totals| <= 60 then 0 else |totals| - 60;
            var requests := Latest(totals, |totals|) - Latest(totals, since);
            Accounts(HistoryAfter(Samples(totals, interval)), interval, requests)
  {
    hide Accounts;
    var samples := Samples(totals, interval);
    var since := if |totals| <= MAX_HISTORY then 0 else |totals| - MAX_HISTORY;
    HistoryIsRecent(samples);
    SamplesTelescope(totals, interval, since);
    assert samples[0..] == samples;
  }
}
