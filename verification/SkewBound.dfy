/**
 * The sliding window's bound under clock skew is sharp: L calls at one moment, one a window later
 * that evicts them, and one by a gateway whose clock lags by the drift.
 */
module SkewBound {
  import opened Counting
  import opened SlidingWindow
  import opened Windows
  import opened Wrappers

  function LaggingRun(limit: nat, window: int, d: int, start: int): (calls: seq<Call>)
    ensures |calls| == limit + 2
  {
    seq(limit + 2, i =>
      if i < limit then Call(start, start, limit, window, i)
      else if i == limit then Call(start + window, start + window, limit, window, i)
      else Call(start + window - d, start + window, limit, window, i))
  }

  /** The members of the first k calls. */
  function Burst(start: int, k: nat): (zset: map<Member, int>)
    ensures |zset| == k
    ensures forall m :: m in zset <==> m.at == start && 0 <= m.suffix < k
    ensures forall m :: m in zset ==> zset[m] == start
  {
    if k == 0 then map[] else Burst(start, k - 1)[Member(start, k - 1) := start]
  }

  function BurstLog(start: int, window: int, k: nat): Log {
    if k == 0 then EMPTY else Log(Burst(start, k), Some(start + window))
  }

  lemma NothingEvicted(start: int, window: int, k: nat)
    requires window > 0
    ensures Evict(BurstLog(start, window, k), start - window) == BurstLog(start, window, k)
  {
    var log := BurstLog(start, window, k);
    assert (map m | m in log.zset && !(0 <= log.zset[m] <= start - window) :: log.zset[m]) == log.zset;
  }

  lemma AllEvicted(start: int, window: int, k: nat)
    requires start >= 0
    ensures Evict(BurstLog(start, window, k), start) == EMPTY
  {
    var log := BurstLog(start, window, k);
    assert (map m | m in log.zset && !(0 <= log.zset[m] <= start) :: log.zset[m]) == map[];
  }

  lemma BurstIsSeen(start: int, window: int, limit: nat, k: nat)
    requires window > 0
    ensures Seen(BurstLog(start, window, k), Call(start, start, limit, window, k)) == BurstLog(start, window, k)
  {
    hide Evict;
    NothingEvicted(start, window, k);
  }

  /** Each call of the burst is admitted and leaves its member beside the others. */
  lemma BurstStep(start: int, window: int, limit: nat, k: nat)
    requires window > 0 && k < limit
    ensures var c := Call(start, start, limit, window, k);
            && Grants(BurstLog(start, window, k), c)
            && Next(BurstLog(start, window, k), c) == BurstLog(start, window, k + 1)
  {
    hide Seen;
    BurstIsSeen(start, window, limit, k);
    assert Burst(start, k + 1) == Burst(start, k)[Member(start, k) := start];
  }

  lemma {:induction false} BurstAdmitted(limit: nat, window: int, d: int, start: int, k: nat)
    requires window > 0 && k <= limit
    ensures StateAt(LaggingRun(limit, window, d, start), k) == BurstLog(start, window, k)
    ensures k < limit ==> Allowed(LaggingRun(limit, window, d, start), k)
  {
    hide Next, Grants, BurstLog, Seen;
    if k > 0 {
      BurstAdmitted(limit, window, d, start, k - 1);
      BurstStep(start, window, limit, k - 1);
    } else {
      assert BurstLog(start, window, 0) == EMPTY by { EmptyBurst(start, window); }
    }
    if k < limit {
      BurstStep(start, window, limit, k);
      AllowedGrants(LaggingRun(limit, window, d, start), k);
    }
  }

  lemma EmptyBurst(start: int, window: int)
    ensures BurstLog(start, window, 0) == EMPTY
  {
  }

  /** What is left of the burst after the call a window later. */
  function LateLog(start: int, window: int, limit: nat): Log {
    Log(map[Member(start + window, limit) := start + window], Some(start + 2 * window))
  }

  /** The call a window later finds the burst evicted. */
  lemma LateCall(start: int, window: int, limit: nat)
    requires window > 0 && limit > 0 && start >= 0
    ensures var log, c := BurstLog(start, window, limit), Call(start + window, start + window, limit, window, limit);
            Grants(log, c) && Next(log, c) == LateLog(start, window, limit)
  {
    hide Evict;
    AllEvicted(start, window, limit);
  }

  /** The lagging call finds only that one's member. */
  lemma LaggingCall(start: int, window: int, limit: nat, d: int)
    requires window > 0 && limit >= 2 && d >= 0
    ensures Grants(LateLog(start, window, limit), Call(start + window - d, start + window, limit, window, limit + 1))
  {
    hide Evict;
    LateMemberStays(Member(start + window, limit), start + window, start + 2 * window, start - d);
  }

  lemma LateCallsAdmitted(limit: nat, window: int, d: int, start: int)
    requires limit >= 2 && 0 <= d <= window && window > 0 && start >= 0
    ensures var calls := LaggingRun(limit, window, d, start); Allowed(calls, limit) && Allowed(calls, limit + 1)
  {
    hide Next, Grants, BurstLog, LateLog, Allowed;
    var calls := LaggingRun(limit, window, d, start);
    BurstAdmitted(limit, window, d, start, limit);
    LateCall(start, window, limit);
    LaggingCall(start, window, limit, d);
    AllowedGrants(calls, limit);
    AllowedGrants(calls, limit + 1);
  }

  lemma LateMemberStays(m: Member, score: int, expireAt: int, upTo: int)
    requires upTo < score
    ensures Evict(Log(map[m := score], Some(expireAt)), upTo) == Log(map[m := score], Some(expireAt))
  {
    var zset := map[m := score];
    assert (map k | k in zset && !(0 <= zset[k] <= upTo) :: zset[k]) == zset;
  }

  lemma LaggingRunFits(limit: nat, window: int, d: int, start: int)
    requires 0 <= d <= window && window > 0
    ensures var calls := LaggingRun(limit, window, d, start);
            Drift(calls, d) && WindowAtLeast(calls, window) && LimitAtMost(calls, limit) && Fresh(calls)
  {
  }

  lemma OneTooMany(limit: nat, window: int, d: int, start: int, flags: seq<bool>)
    requires |flags| == limit + 2 && d <= window
    requires (forall i :: 0 <= i < limit ==> flags[i]) && flags[limit + 1]
    ensures var times := Times(LaggingRun(limit, window, d, start));
            |PickedIn(times, flags, limit + 2, start - 1, start + window - d)| > limit
  {
    var burst := set i | 0 <= i < limit && flags[i];
    AllCounted(flags, 0, limit);
    CountIsCardinality(flags, 0, limit);
    var times := Times(LaggingRun(limit, window, d, start));
    SubsetCardinality(burst + {limit + 1}, PickedIn(times, flags, limit + 2, start - 1, start + window - d));
  }

  /**
   * The bound is sharp: for every limit of at least two and every drift up to the window, a run with
   * fresh members and that drift admits more than the limit in an interval only one tick longer.
   */
  lemma SkewBoundIsSharp(limit: nat, window: int, d: int, start: int, flags: seq<bool>)
    requires limit >= 2 && 0 <= d <= window && window > 0 && start >= 0
    requires |flags| == limit + 2 && Answers(LaggingRun(limit, window, d, start), flags)
    ensures var calls := LaggingRun(limit, window, d, start);
            Drift(calls, d) && WindowAtLeast(calls, window) && LimitAtMost(calls, limit) && Fresh(calls)
    ensures var times := Times(LaggingRun(limit, window, d, start));
            |PickedIn(times, flags, limit + 2, start - 1, start + window - d)| > limit
  {
    hide Allowed, LaggingRun, Drift, WindowAtLeast, LimitAtMost, Fresh, PickedIn;
    LaggingRunFits(limit, window, d, start);
    LateCallsAdmitted(limit, window, d, start);
    forall i | 0 <= i < limit ensures flags[i] {
      BurstAdmitted(limit, window, d, start, i);
    }
    OneTooMany(limit, window, d, start, flags);
  }
}
