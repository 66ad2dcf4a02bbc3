/**
 * The self-healer's monitor: it differences successive snapshots, judges the failure rate of each
 * busy interval, and has at most one recovery under way.
 */
module Healer {
  import opened MetricKeys
  import opened Metrics
  import opened Sums
  import opened Wrappers

  const MIN_REQUESTS := 10

  function Text(name: Name): string {
    match name
    case Hits(verb, path, status) => CounterKey(verb, path, status)
    case TotalMs(verb, path) => LatencyKey(verb, path)
    case Timed(verb, path) => LatencyKey(verb, path)
  }

  /** The hit counters of the statuses a failing upstream answers with. */
  ghost predicate IsFailure(name: Name) {
    name.Hits? && name.status in {500, 502, 504}
  }

  ghost function Total(snapshot: map<Name, int>): int { Sum(snapshot) }

  ghost function Failed(snapshot: map<Name, int>): int {
    Sum(Restrict(snapshot, set n | n in snapshot && IsFailure(n)))
  }

  ghost predicate OnlyHits(snapshot: map<Name, int>) {
    forall n :: n in snapshot ==> n.Hits?
  }

  class SelfHealer {
    var lastTotal: int
    var lastFailed: int
    var isFailingOver: bool
    /** The recoveries started and not yet finished. */
    ghost var recoveries: nat
    const failureLimit: real

    ghost predicate Valid()
      reads this
    {
      recoveries == if isFailingOver then 1 else 0
    }

    constructor (failureLimit: real)
      ensures Valid() && this.failureLimit == failureLimit
      ensures lastTotal == 0 && lastFailed == 0 && !isFailingOver
    {
      this.failureLimit := failureLimit;
      lastTotal, lastFailed, isFailingOver := 0, 0, false;
      recoveries := 0;
    }

    /** Add up a snapshot, in whatever order its counters come. */
    method CountRequests(snapshot: map<Name, int>) returns (total: int, failed: int)
      requires OnlyHits(snapshot)
      ensures total == Total(snapshot) && failed == Failed(snapshot)
    {
      total, failed := 0, 0;
      var left := snapshot.Keys;
      assert Restrict(snapshot, left) == snapshot;
      while left != {}
        invariant left <= snapshot.Keys
        invariant total + Sum(Restrict(snapshot, left)) == Total(snapshot)
        invariant failed + Sum(Restrict(snapshot, set n | n in left && IsFailure(n))) == Failed(snapshot)
      {
        var key :| key in left;
        var text := Text(key);
        FailureKeys(key.verb, key.path, key.status);
        TakeFrom(snapshot, left, key);
        total := total + snapshot[key];
        if HasSuffix(text, ":502") || HasSuffix(text, ":504") || HasSuffix(text, ":500") {
          failed := failed + snapshot[key];
        }
        left := left - {key};
      }
    }

    /** One tick of the monitor; in a busy interval it judges the failure rate, in percent. */
    method Tick(snapshot: map<Name, int>) returns (rate: Option<real>)
      requires Valid() && OnlyHits(snapshot)
      modifies this
      ensures Valid() && lastTotal == Total(snapshot) && lastFailed == Failed(snapshot)
      ensures rate == Judged(lastTotal - old(lastTotal), lastFailed - old(lastFailed))
      ensures var breach := Breaches(lastTotal - old(lastTotal), lastFailed - old(lastFailed), failureLimit);
        && isFailingOver == (old(isFailingOver) || breach)
        && recoveries == old(recoveries) + if !old(isFailingOver) && breach then 1 else 0
    {
      hide Share, Breaches;
      var currentTotal, currentFailed := CountRequests(snapshot);
      var totalInInterval := currentTotal - lastTotal;
      var failedInInterval := currentFailed - lastFailed;
      lastTotal, lastFailed := currentTotal, currentFailed;
      BreachesExactly(totalInInterval, failedInInterval, failureLimit);
      if totalInInterval < MIN_REQUESTS {
        return None;
      }
      var failureRate := Share(failedInInterval, totalInInterval);
      EvaluateHealth(failureRate);
      return Some(failureRate);
    }

    method EvaluateHealth(failureRate: real)
      requires Valid()
      modifies this`isFailingOver, this`recoveries
      ensures Valid()
      ensures isFailingOver == (old(isFailingOver) || failureRate >= failureLimit)
      ensures recoveries == old(recoveries) + if !old(isFailingOver) && failureRate >= failureLimit then 1 else 0
    {
      if isFailingOver {
        return;
      }
      if failureRate >= failureLimit {
        isFailingOver := true;
        recoveries := recoveries + 1;
      }
    }

    /** The end of a recovery, however it went. */
    method Recovered()
      requires Valid() && recoveries > 0
      modifies this`isFailingOver, this`recoveries
      ensures Valid() && recoveries == 0 && !isFailingOver
    {
      isFailingOver := false;
      recoveries := recoveries - 1;
    }
  }

  /** Taking one counter out of those left to add splits both sums. */
  lemma TakeFrom(snapshot: map<Name, int>, left: set<Name>, key: Name)
    requires left <= snapshot.Keys && key in left
    ensures Sum(Restrict(snapshot, left)) == snapshot[key] + Sum(Restrict(snapshot, left - {key}))
    ensures Sum(Restrict(snapshot, set n | n in left && IsFailure(n)))
         == (if IsFailure(key) then snapshot[key] else 0)
             + Sum(Restrict(snapshot, set n | n in left - {key} && IsFailure(n)))
  {
    var failing := set n | n in left && IsFailure(n);
    Without(Restrict(snapshot, left), key);
    Without(Restrict(snapshot, failing), key);
    assert Restrict(snapshot, left) - {key} == Restrict(snapshot, left - {key});
    assert Restrict(snapshot, failing) - {key} == Restrict(snapshot, set n | n in left - {key} && IsFailure(n));
  }

  /** A share in percent. */
  function Share(part: int, whole: int): real
    requires whole > 0
  {
    part as real / whole as real * 100.0
  }

  /** The failure rate of an interval, if it saw enough requests to judge. */
  function Judged(total: int, failed: int): Option<real> {
    if total < MIN_REQUESTS then None else Some(Share(failed, total))
  }

  /** At least ten requests came, and the failures reach the limit, a percentage of them. */
  predicate Breaches(total: int, failed: int, limit: real) {
    total >= 10 && 100.0 * failed as real >= limit * total as real
  }

  /**
   * An interval is judged exactly from ten requests on, and its rate is the failed share in percent:
   * times the requests, it is a hundred times the failures.
   */
  lemma RateExactly(total: int, failed: int)
    ensures Judged(total, failed).Some? <==> total >= 10
    ensures total >= 10 ==> Judged(total, failed).value * total as real == 100.0 * failed as real
  {
    if total >= 10 { Percent(failed as real, total as real); }
  }

  lemma Percent(f: real, t: real)
    requires t > 0.0
    ensures f / t * 100.0 * t == 100.0 * f
  {
    var q := f / t;
    assert q * t == f;
    assert q * 100.0 * t == 100.0 * (q * t);
  }

  /** A rate reaches the limit exactly if the interval breaches it. */
  lemma BreachesExactly(total: int, failed: int, limit: real)
    ensures Breaches(total, failed, limit) <==> Judged(total, failed).Some? && Judged(total, failed).value >= limit
  {
    hide Share;
    if total >= 10 {
      RateExactly(total, failed);
      SameOrder(Share(failed, total), limit, total as real);
    }
  }

  lemma SameOrder(x: real, y: real, t: real)
    requires t > 0.0
    ensures x >= y <==> x * t >= y * t
  {
    if x >= y { NotLess(y, x, t); }
    if x < y { Less(x, y, t); }
  }

  lemma NotLess(x: real, y: real, t: real)
    requires x <= y && t > 0.0
    ensures x * t <= y * t
  {
  }

  lemma Less(x: real, y: real, t: real)
    requires x < y && t > 0.0
    ensures x * t < y * t
  {
  }

  lemma RateInRange(failed: int, total: int)
    requires 0 <= failed <= total && total > 0
    ensures 0.0 <= failed as real / total as real * 100.0 <= 100.0
  {
    var q, t := failed as real / total as real, total as real;
    assert q * t == failed as real;
    if q > 1.0 { LargerProduct(q, t); }
  }

  lemma LargerProduct(q: real, t: real)
    requires q > 1.0 && t > 0.0
    ensures q * t > t
  {
  }

  /** The interval between two ordered snapshots has no negative traffic and no more failures than requests. */
  lemma IntervalIsSound(before: map<Name, int>, after: map<Name, int>)
    requires Below(before, after)
    ensures 0 <= Failed(after) - Failed(before) <= Total(after) - Total(before)
  {
    var failing := set n | n in after && IsFailure(n);
    SumsGrow(before, after, failing);
    assert Restrict(before, failing) == Restrict(before, set n | n in before && IsFailure(n));
  }

  /**
   * Torn snapshots are sound: whatever was being recorded while a reader took its snapshots one
   * counter at a time, the interval between two of them has no negative traffic, no more failures
   * than requests, and a failure rate between 0 and 100 percent.
   */
  lemma TornSnapshotsAreSound(ws: seq<World>, steps: seq<Step>, n: nat, reader: nat)
    requires IsRun(ws, steps) && n < |steps| && steps[n] == EndSnapshot(reader)
    ensures reader in ws[n].readers && reader in ws[n + 1].readers
    ensures var before, after := ws[n].readers[reader].last, ws[n + 1].readers[reader].last;
            && 0 <= Failed(after) - Failed(before) <= Total(after) - Total(before)
            && var rate := Judged(Total(after) - Total(before), Failed(after) - Failed(before));
               rate.Some? ==> 0.0 <= rate.value <= 100.0
  {
    hide IsRun, Below, Total, Failed;
    TornSnapshotsGrow(ws, steps, n, reader);
    var before, after := ws[n].readers[reader].last, ws[n + 1].readers[reader].last;
    IntervalIsSound(before, after);
    if Total(after) - Total(before) >= MIN_REQUESTS {
      RateInRange(Failed(after) - Failed(before), Total(after) - Total(before));
    }
  }
}
