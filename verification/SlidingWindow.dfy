/**
 * The sliding-window log: one Redis sorted set per client, evicted, counted and extended by
 * one atomic script, with the set's key expiring on the server's own clock.
 */
module SlidingWindow {
  import opened Counting
  import opened Windows
  import opened Wrappers

  /** A log member is the gateway's timestamp followed by a random suffix. */
  datatype Member = Member(at: int, suffix: int)

  /** One execution of the script: the gateway's clock, the server's clock, and the policy in force. */
  datatype Call = Call(now: int, server: int, limit: int, window: int, suffix: int) {
    function Entry(): Member { Member(now, suffix) }
  }

  /** What the server holds under one key; a key without members does not exist and has no expiry. */
  datatype Log = Log(zset: map<Member, int>, expireAt: Option<int>)

  const EMPTY := Log(map[], None)

  function Alive(log: Log, server: int): Log {
    if log.expireAt.Some? && server > log.expireAt.value then EMPTY else log
  }

  function Evict(log: Log, upTo: int): Log {
    var kept := map m | m in log.zset && !(0 <= log.zset[m] <= upTo) :: log.zset[m];
    if |kept| == 0 then EMPTY else Log(kept, log.expireAt)
  }

  /** The log the script counts: expired as a whole by the server, then evicted by score. */
  function Seen(log: Log, c: Call): Log {
    Evict(Alive(log, c.server), c.now - c.window)
  }

  predicate Grants(log: Log, c: Call) {
    |Seen(log, c).zset| < c.limit
  }

  function Next(log: Log, c: Call): Log {
    var seen := Seen(log, c);
    if !Grants(log, c) then seen
    else if c.window <= 0 then EMPTY
    else Log(seen.zset[c.Entry() := c.now], Some(c.server + c.window))
  }

  /** One sorted-set key of the server, with the four commands the script issues. */
  class SortedSet {
    var zset: map<Member, int>
    var expireAt: Option<int>

    constructor ()
      ensures Contents() == EMPTY
    {
      zset, expireAt := map[], None;
    }

    function Contents(): Log
      reads this
    {
      Log(zset, expireAt)
    }

    /** The server drops the key before any command that finds its time passed. */
    method Touch(server: int)
      modifies this
      ensures Contents() == Alive(old(Contents()), server)
    {
      if expireAt.Some? && server > expireAt.value {
        zset, expireAt := map[], None;
      }
    }

    method ZRemRangeByScore(upTo: int)
      modifies this
      ensures Contents() == Evict(old(Contents()), upTo)
    {
      zset := map m | m in zset && !(0 <= zset[m] <= upTo) :: zset[m];
      if |zset| == 0 {
        zset, expireAt := map[], None;
      }
    }

    method ZAdd(score: int, member: Member)
      modifies this`zset
      ensures zset == old(zset)[member := score]
    {
      zset := zset[member := score];
    }

    method PExpire(server: int, window: int)
      modifies this
      ensures Contents() == if window <= 0 then EMPTY else Log(old(zset), Some(server + window))
    {
      if window <= 0 {
        zset, expireAt := map[], None;
      } else {
        expireAt := Some(server + window);
      }
    }

    /** The script: evict, count, admit and renew the expiry, or refuse. */
    method RunScript(c: Call) returns (allowed: bool)
      modifies this
      ensures allowed == Grants(old(Contents()), c)
      ensures Contents() == Next(old(Contents()), c)
    {
      Touch(c.server);
      ZRemRangeByScore(c.now - c.window);
      var current := |zset|;
      if current < c.limit {
        ZAdd(c.now, c.Entry());
        PExpire(c.server, c.window);
        allowed := true;
      } else {
        allowed := false;
      }
    }
  }

  // ---------- Runs ----------

  /** The log after the first n calls on a key that starts out absent. */
  function StateAt(calls: seq<Call>, n: nat): Log
    requires n <= |calls|
  {
    if n == 0 then EMPTY else Next(StateAt(calls, n - 1), calls[n - 1])
  }

  /** The log call n counts. */
  function SeenAt(calls: seq<Call>, n: nat): map<Member, int>
    requires n < |calls|
  {
    Seen(StateAt(calls, n), calls[n]).zset
  }

  predicate Allowed(calls: seq<Call>, n: nat)
    requires n < |calls|
  {
    |SeenAt(calls, n)| < calls[n].limit
  }

  /** A call is admitted exactly when the script grants it on the log it finds. */
  lemma AllowedGrants(calls: seq<Call>, n: nat)
    requires n < |calls|
    ensures Allowed(calls, n) <==> Grants(StateAt(calls, n), calls[n])
  {
  }

  /** `flags` are the script's answers to `calls`, in order. */
  ghost predicate Answers(calls: seq<Call>, flags: seq<bool>)
    requires |flags| == |calls|
  {
    forall n :: 0 <= n < |calls| ==> flags[n] == Allowed(calls, n)
  }

  function Times(calls: seq<Call>): (times: seq<int>)
    ensures |times| == |calls| && forall i :: 0 <= i < |calls| ==> times[i] == calls[i].now
  {
    seq(|calls|, i requires 0 <= i < |calls| => calls[i].now)
  }

  /** The distinct members of the flagged calls among the first n with a timestamp in (from, to]. */
  function MembersIn(calls: seq<Call>, flags: seq<bool>, n: nat, from: int, to: int): set<Member>
    requires |flags| == |calls| && n <= |calls|
  {
    set j | 0 <= j < n && flags[j] && from < calls[j].now <= to :: calls[j].Entry()
  }

  /** No two calls ever present the same timestamp and suffix. */
  ghost predicate Fresh(calls: seq<Call>) {
    forall i, j :: 0 <= i < j < |calls| ==> calls[i].Entry() != calls[j].Entry()
  }

  /**
   * The server's clock never runs backwards, and between any two calls the gateways' clocks
   * fall behind it by at most d.
   */
  ghost predicate Drift(calls: seq<Call>, d: int) {
    forall i, j :: 0 <= i <= j < |calls| ==>
      && calls[i].server <= calls[j].server
      && (calls[j].server - calls[i].server) - (calls[j].now - calls[i].now) <= d
  }

  ghost predicate WindowAtLeast(calls: seq<Call>, window: int) {
    forall i :: 0 <= i < |calls| ==> calls[i].window >= window
  }

  ghost predicate LimitAtMost(calls: seq<Call>, limit: int) {
    forall i :: 0 <= i < |calls| ==> calls[i].limit <= limit
  }

  /** The log holds member j, and its expiry was set by call j or a later one. */
  ghost predicate Holds(log: Log, calls: seq<Call>, j: nat, n: nat)
    requires j < n <= |calls|
  {
    && calls[j].Entry() in log.zset && log.zset[calls[j].Entry()] == calls[j].now
    && log.expireAt.Some?
    && exists q :: j <= q < n && log.expireAt.value == calls[q].server + calls[q].window
  }

  /** Neither the server's expiry nor call n's eviction removes a member still needed by call k. */
  lemma StillSeen(log: Log, calls: seq<Call>, d: int, window: int, j: nat, n: nat, k: nat)
    requires j < n <= k < |calls|
    requires Drift(calls, d) && WindowAtLeast(calls, window)
    requires calls[k].now - calls[j].now < window - d
    requires Holds(log, calls, j, n)
    ensures Holds(Seen(log, calls[n]), calls, j, n)
  {
    var q :| j <= q < n && log.expireAt.value == calls[q].server + calls[q].window;
    assert calls[j].server <= calls[q].server;
    assert calls[n].server <= calls[k].server;
    assert Alive(log, calls[n].server) == log;
    assert calls[n].now <= calls[k].now + d;
    var kept := map m | m in log.zset && !(0 <= log.zset[m] <= calls[n].now - calls[n].window) :: log.zset[m];
    assert calls[j].Entry() in kept;
  }

  lemma StillHeld(log: Log, calls: seq<Call>, j: nat, n: nat, k: nat, d: int, window: int)
    requires j < n <= k < |calls|
    requires Drift(calls, d) && WindowAtLeast(calls, window)
    requires calls[k].now - calls[j].now < window - d
    requires Holds(log, calls, j, n)
    ensures n < k ==> Holds(Next(log, calls[n]), calls, j, n + 1)
  {
    StillSeen(log, calls, d, window, j, n, k);
    if n < k {
      assert calls[j].now <= calls[n].now + d && calls[n].now <= calls[k].now + d;
      assert (calls[n].server - calls[j].server) - (calls[n].now - calls[j].now) <= d;
    }
  }

  lemma FreshlyHeld(log: Log, calls: seq<Call>, d: int, window: int, j: nat, k: nat)
    requires j < k < |calls|
    requires Drift(calls, d) && WindowAtLeast(calls, window)
    requires Grants(log, calls[j])
    requires calls[k].now - calls[j].now < window - d
    ensures Holds(Next(log, calls[j]), calls, j, j + 1)
  {
    assert calls[j].window > 0;
    assert Next(log, calls[j]).expireAt.value == calls[j].server + calls[j].window;
  }

  /**
   * Eviction and expiry lose nothing recent: a member admitted by call j is still in the log
   * when a later call k counts it, if k's timestamp is less than window - d past j's.
   */
  lemma {:induction false} Retained(calls: seq<Call>, d: int, window: int, j: nat, n: nat, k: nat)
    requires j < n <= k < |calls|
    requires Drift(calls, d) && WindowAtLeast(calls, window)
    requires Allowed(calls, j)
    requires calls[k].now - calls[j].now < window - d
    ensures Holds(StateAt(calls, n), calls, j, n)
    decreases n
  {
    hide Drift, WindowAtLeast, Next, Holds, Seen;
    if n - 1 == j {
      FreshlyHeld(StateAt(calls, j), calls, d, window, j, k);
    } else {
      Retained(calls, d, window, j, n - 1, k);
      StillHeld(StateAt(calls, n - 1), calls, j, n - 1, k, d, window);
    }
  }

  lemma RecentIsSeen(calls: seq<Call>, flags: seq<bool>, d: int, window: int, k: nat, from: int)
    requires k < |calls| == |flags| && Answers(calls, flags)
    requires Drift(calls, d) && WindowAtLeast(calls, window)
    requires from < calls[k].now <= from + window - d
    ensures MembersIn(calls, flags, k, from, from + window - d) <= SeenAt(calls, k).Keys
  {
    forall m | m in MembersIn(calls, flags, k, from, from + window - d) ensures m in SeenAt(calls, k).Keys {
      var j :| 0 <= j < k && flags[j] && from < calls[j].now <= from + window - d && calls[j].Entry() == m;
      Retained(calls, d, window, j, k, k);
      StillSeen(StateAt(calls, k), calls, d, window, j, k, k);
    }
  }

  lemma AdmittedUnderLimit(calls: seq<Call>, flags: seq<bool>, d: int, window: int, k: nat, from: int)
    requires k < |calls| == |flags| && Answers(calls, flags) && flags[k]
    requires Drift(calls, d) && WindowAtLeast(calls, window)
    requires from < calls[k].now <= from + window - d
    ensures |MembersIn(calls, flags, k, from, from + window - d)| < calls[k].limit
  {
    RecentIsSeen(calls, flags, d, window, k, from);
    SubsetCardinality(MembersIn(calls, flags, k, from, from + window - d), SeenAt(calls, k).Keys);
    assert |SeenAt(calls, k)| == |SeenAt(calls, k).Keys|;
  }

  lemma MembersStep(calls: seq<Call>, flags: seq<bool>, n: nat, from: int, to: int)
    requires n < |calls| == |flags|
    ensures MembersIn(calls, flags, n + 1, from, to)
         == MembersIn(calls, flags, n, from, to)
          + if flags[n] && from < calls[n].now <= to then {calls[n].Entry()} else {}
  {
  }

  /**
   * Safety under clock skew, with any mixture of policies on the client's one key: no half-open
   * interval of timestamps as long as the smallest window, less the drift, receives more
   * distinct members than the largest limit.
   */
  lemma {:induction false} SkewSafety(calls: seq<Call>, flags: seq<bool>, n: nat, d: int, window: int, limit: nat,
                                      from: int)
    requires n <= |calls| == |flags| && Answers(calls, flags)
    requires Drift(calls, d) && WindowAtLeast(calls, window) && LimitAtMost(calls, limit)
    ensures |MembersIn(calls, flags, n, from, from + window - d)| <= limit
    decreases n
  {
    hide Answers, Drift;
    if n > 0 {
      SkewSafety(calls, flags, n - 1, d, window, limit, from);
      MembersStep(calls, flags, n - 1, from, from + window - d);
      if flags[n - 1] && from < calls[n - 1].now <= from + window - d {
        AdmittedUnderLimit(calls, flags, d, window, n - 1, from);
      }
    }
  }

  function Entries(calls: seq<Call>, n: nat): map<int, Member>
    requires n <= |calls|
  {
    map j | 0 <= j < n :: calls[j].Entry()
  }

  lemma MemberIsPicked(calls: seq<Call>, flags: seq<bool>, n: nat, from: int, to: int, m: Member) returns (j: int)
    requires n <= |calls| == |flags| && m in MembersIn(calls, flags, n, from, to)
    ensures j in PickedIn(Times(calls), flags, n, from, to) && Entries(calls, n)[j] == m
  {
    j :| 0 <= j < n && flags[j] && from < calls[j].now <= to && calls[j].Entry() == m;
  }

  lemma PickedIsMember(calls: seq<Call>, flags: seq<bool>, n: nat, from: int, to: int)
    requires n <= |calls| == |flags|
    ensures PickedIn(Times(calls), flags, n, from, to) <= Entries(calls, n).Keys
    ensures forall j :: j in PickedIn(Times(calls), flags, n, from, to) ==>
              Entries(calls, n)[j] == calls[j].Entry() && Entries(calls, n)[j] in MembersIn(calls, flags, n, from, to)
  {
  }

  /** Distinct members are no more than admitted calls. */
  lemma FewerMembers(calls: seq<Call>, flags: seq<bool>, n: nat, from: int, to: int)
    requires n <= |calls| == |flags|
    ensures |MembersIn(calls, flags, n, from, to)| <= |PickedIn(Times(calls), flags, n, from, to)|
  {
    PickedIsMember(calls, flags, n, from, to);
    hide PickedIn, MembersIn, Entries;
    var picked, members := PickedIn(Times(calls), flags, n, from, to), MembersIn(calls, flags, n, from, to);
    forall m | m in members ensures exists j :: j in picked && Entries(calls, n)[j] == m {
      var j := MemberIsPicked(calls, flags, n, from, to, m);
    }
    ImageNoLarger(picked, members, Entries(calls, n));
  }

  /** Where no two of them share a member, they are as many. */
  lemma DistinctCounts(calls: seq<Call>, flags: seq<bool>, n: nat, from: int, to: int)
    requires n <= |calls| == |flags|
    requires var picked := PickedIn(Times(calls), flags, n, from, to);
             forall i, j :: i in picked && j in picked && i < j ==> calls[i].Entry() != calls[j].Entry()
    ensures |PickedIn(Times(calls), flags, n, from, to)| == |MembersIn(calls, flags, n, from, to)|
  {
    PickedIsMember(calls, flags, n, from, to);
    hide MembersIn, Entries;
    var picked, members := PickedIn(Times(calls), flags, n, from, to), MembersIn(calls, flags, n, from, to);
    forall m | m in members ensures exists j :: j in picked && Entries(calls, n)[j] == m {
      var j := MemberIsPicked(calls, flags, n, from, to, m);
    }
    ImageCardinality(picked, members, Entries(calls, n));
  }

  /** With fresh members, distinct members and admitted calls are the same count. */
  lemma FreshCounts(calls: seq<Call>, flags: seq<bool>, n: nat, from: int, to: int)
    requires n <= |calls| == |flags| && Fresh(calls)
    ensures |PickedIn(Times(calls), flags, n, from, to)| == |MembersIn(calls, flags, n, from, to)|
  {
    DistinctCounts(calls, flags, n, from, to);
  }

  lemma SkewSafetyForCalls(calls: seq<Call>, flags: seq<bool>, n: nat, d: int, window: int, limit: nat, from: int)
    requires n <= |calls| == |flags| && Answers(calls, flags)
    requires Drift(calls, d) && WindowAtLeast(calls, window) && LimitAtMost(calls, limit) && Fresh(calls)
    ensures |PickedIn(Times(calls), flags, n, from, from + window - d)| <= limit
  {
    SkewSafety(calls, flags, n, d, window, limit, from);
    FreshCounts(calls, flags, n, from, from + window - d);
  }

  /** Gateways that each stay within e of the server's clock drift by at most 2e. */
  lemma BoundedSkewIsDrift(calls: seq<Call>, e: int)
    requires forall i, j :: 0 <= i <= j < |calls| ==> calls[i].server <= calls[j].server
    requires forall i :: 0 <= i < |calls| ==> -e <= calls[i].now - calls[i].server <= e
    ensures Drift(calls, 2 * e)
  {
  }

  // ---------- One shared clock, one policy ----------

  /** All gateways and the server read one clock, from its epoch on, that never runs backwards. */
  ghost predicate SharedClock(calls: seq<Call>) {
    && (forall i :: 0 <= i < |calls| ==> calls[i].now == calls[i].server >= 0)
    && (forall i, j :: 0 <= i <= j < |calls| ==> calls[i].now <= calls[j].now)
  }

  ghost predicate OneWindow(calls: seq<Call>, window: int) {
    forall i :: 0 <= i < |calls| ==> calls[i].window == window
  }

  ghost predicate OneLimit(calls: seq<Call>, limit: int) {
    forall i :: 0 <= i < |calls| ==> calls[i].limit == limit
  }

  /** Member m's score is its timestamp, and one of the first n calls was admitted with it. */
  ghost predicate Accounted(calls: seq<Call>, n: nat, m: Member, score: int)
    requires n <= |calls|
  {
    score == m.at && exists j :: 0 <= j < n && Allowed(calls, j) && calls[j].Entry() == m
  }

  lemma KeptOrNew(log: Log, c: Call, m: Member)
    requires m in Next(log, c).zset
    ensures (m in log.zset && Next(log, c).zset[m] == log.zset[m])
        || (Grants(log, c) && m == c.Entry() && Next(log, c).zset[m] == m.at)
  {
  }

  /** Nothing is in the log but members of earlier admissions. */
  lemma {:induction false} OnlyAdmitted(calls: seq<Call>, n: nat, m: Member)
    requires n <= |calls| && m in StateAt(calls, n).zset
    ensures Accounted(calls, n, m, StateAt(calls, n).zset[m])
    decreases n
  {
    hide Next;
    KeptOrNew(StateAt(calls, n - 1), calls[n - 1], m);
    if m in StateAt(calls, n - 1).zset {
      OnlyAdmitted(calls, n - 1, m);
    }
    if Grants(StateAt(calls, n - 1), calls[n - 1]) && m == calls[n - 1].Entry() {
      assert Allowed(calls, n - 1);
    }
  }

  /** What call n counts is exactly the members admitted in (now - window, now]. */
  lemma SeenIsWindow(calls: seq<Call>, flags: seq<bool>, window: int, n: nat)
    requires n < |calls| == |flags| && Answers(calls, flags) && SharedClock(calls) && OneWindow(calls, window)
    ensures SeenAt(calls, n).Keys == MembersIn(calls, flags, n, calls[n].now - window, calls[n].now)
  {
    var from := calls[n].now - window;
    if window > 0 {
      RecentIsSeen(calls, flags, 0, window, n, from);
    }
    forall m | m in SeenAt(calls, n).Keys ensures m in MembersIn(calls, flags, n, from, calls[n].now) {
      OnlyAdmitted(calls, n, m);
      var j :| 0 <= j < n && Allowed(calls, j) && calls[j].Entry() == m;
      assert flags[j];
    }
  }

  /**
   * A reference limiter that never forgets: it refuses call n when `limit` of all its earlier
   * admissions are younger than the window.
   */
  predicate Reference(calls: seq<Call>, n: nat)
    requires n < |calls|
  {
    |set j | 0 <= j < n && Reference(calls, j) && calls[n].now - calls[n].window < calls[j].now| < calls[n].limit
  }

  lemma SeenCount(calls: seq<Call>, flags: seq<bool>, n: nat, members: set<Member>)
    requires n < |calls| == |flags| && Answers(calls, flags) && SeenAt(calls, n).Keys == members
    ensures |SeenAt(calls, n)| == |members|
    ensures flags[n] <==> |members| < calls[n].limit
  {
    assert |SeenAt(calls, n)| == |SeenAt(calls, n).Keys|;
  }

  /** A call is refused exactly when `limit` earlier admissions lie in (now - window, now]. */
  lemma RefusedExactlyWhenFull(calls: seq<Call>, flags: seq<bool>, window: int, n: nat)
    requires n < |calls| == |flags| && Answers(calls, flags)
    requires SharedClock(calls) && OneWindow(calls, window) && Fresh(calls)
    ensures !flags[n] <==>
            |PickedIn(Times(calls), flags, n, calls[n].now - window, calls[n].now)| >= calls[n].limit
  {
    hide Answers, SharedClock, SeenAt;
    var from, to := calls[n].now - window, calls[n].now;
    SeenIsWindow(calls, flags, window, n);
    SeenCount(calls, flags, n, MembersIn(calls, flags, n, from, to));
    FreshCounts(calls, flags, n, from, to);
  }

  /** Past agreement with the reference carries over to the calls counted now. */
  lemma SamePast(calls: seq<Call>, flags: seq<bool>, n: nat)
    requires n < |calls| == |flags| && SharedClock(calls)
    requires forall j :: 0 <= j < n ==> flags[j] == Reference(calls, j)
    ensures Reference(calls, n) <==>
            |PickedIn(Times(calls), flags, n, calls[n].now - calls[n].window, calls[n].now)| < calls[n].limit
  {
    assert PickedIn(Times(calls), flags, n, calls[n].now - calls[n].window, calls[n].now)
        == set j | 0 <= j < n && Reference(calls, j) && calls[n].now - calls[n].window < calls[j].now;
  }

  /** Eviction and expiry never change a decision: the script decides as the full history does. */
  lemma {:induction false} RefinesFullHistory(calls: seq<Call>, flags: seq<bool>, window: int, n: nat)
    requires n < |calls| == |flags| && Answers(calls, flags)
    requires SharedClock(calls) && OneWindow(calls, window) && Fresh(calls)
    ensures flags[n] == Reference(calls, n)
    decreases n
  {
    hide Answers, SharedClock, Fresh, Reference;
    forall j | 0 <= j < n ensures flags[j] == Reference(calls, j) {
      RefinesFullHistory(calls, flags, window, j);
    }
    RefusedExactlyWhenFull(calls, flags, window, n);
    SamePast(calls, flags, n);
  }

  lemma DecidesAt(calls: seq<Call>, flags: seq<bool>, window: int, limit: int, n: nat)
    requires n < |calls| == |flags| && Answers(calls, flags) && Fresh(calls)
    requires SharedClock(calls) && OneWindow(calls, window) && OneLimit(calls, limit)
    ensures DecidesCall(Times(calls), flags, window, limit, n)
  {
    hide Answers, Fresh, SharedClock, PickedIn;
    RefusedExactlyWhenFull(calls, flags, window, n);
  }

  lemma DecidesByItsWindow(calls: seq<Call>, flags: seq<bool>, window: int, limit: int)
    requires |flags| == |calls| && Answers(calls, flags) && Fresh(calls)
    requires SharedClock(calls) && OneWindow(calls, window) && OneLimit(calls, limit)
    ensures Nondecreasing(Times(calls)) && DecidesByWindow(Times(calls), flags, window, limit)
  {
    ClockIsOrdered(calls);
    hide Nondecreasing, Answers, Fresh, SharedClock, OneWindow, OneLimit;
    forall n | 0 <= n < |calls| ensures DecidesCall(Times(calls), flags, window, limit, n) {
      DecidesAt(calls, flags, window, limit, n);
    }
  }

  lemma ClockIsOrdered(calls: seq<Call>)
    requires SharedClock(calls)
    ensures Nondecreasing(Times(calls))
  {
  }

  /**
   * Greedy optimality: the script keeps the promise, and after any prefix of the arrivals it has
   * admitted at least as many calls as any other choice that keeps it.
   */
  lemma GreedyIsOptimal(calls: seq<Call>, flags: seq<bool>, picks: seq<bool>, window: int, limit: int, n: nat)
    requires |flags| == |calls| && Answers(calls, flags) && Fresh(calls)
    requires SharedClock(calls) && OneWindow(calls, window) && OneLimit(calls, limit) && window > 0
    requires |picks| == |calls| && KeepsPromise(Times(calls), picks, window, limit)
    requires n <= |calls|
    ensures KeepsPromise(Times(calls), flags, window, limit)
    ensures Count(picks, 0, n) <= Count(flags, 0, n)
  {
    DecidesByItsWindow(calls, flags, window, limit);
    DecidingKeepsPromise(Times(calls), flags, window, limit);
    DecidingIsOptimal(Times(calls), flags, picks, window, limit, n);
  }

  /** The i-th admission comes no later than the i-th pick of any choice that keeps the promise. */
  lemma IthAdmissionNoLater(calls: seq<Call>, flags: seq<bool>, picks: seq<bool>, window: int, limit: int, p: nat)
    returns (q: nat)
    requires |flags| == |calls| && Answers(calls, flags) && Fresh(calls)
    requires SharedClock(calls) && OneWindow(calls, window) && OneLimit(calls, limit) && window > 0
    requires |picks| == |calls| && KeepsPromise(Times(calls), picks, window, limit)
    requires p < |calls| && picks[p]
    ensures q <= p && flags[q] && Count(flags, 0, q + 1) == Count(picks, 0, p + 1)
  {
    DecidesByItsWindow(calls, flags, window, limit);
    q := IthNoLater(Times(calls), flags, picks, window, limit, p);
  }

  // ---------- Repeated members ----------

  /**
   * What the script counts is the number of earlier admissions in the window exactly when no two
   * of them presented the same timestamp and suffix; a repetition overwrites an entry, so that
   * otherwise it counts too few.
   */
  lemma CountsExactlyWhenDistinct(calls: seq<Call>, flags: seq<bool>, window: int, n: nat)
    requires n < |calls| == |flags| && Answers(calls, flags) && SharedClock(calls) && OneWindow(calls, window)
    ensures var recent := PickedIn(Times(calls), flags, n, calls[n].now - window, calls[n].now);
            && |SeenAt(calls, n)| <= |recent|
            && (|SeenAt(calls, n)| == |recent| <==>
                forall i, j :: i in recent && j in recent && i < j ==> calls[i].Entry() != calls[j].Entry())
  {
    hide Answers, SharedClock, SeenAt;
    var from, to := calls[n].now - window, calls[n].now;
    SeenIsWindow(calls, flags, window, n);
    SeenCount(calls, flags, n, MembersIn(calls, flags, n, from, to));
    RepetitionsOverwrite(calls, flags, n, from, to);
    FewerMembers(calls, flags, n, from, to);
  }

  /** Call n's window holds as many admissions as the limit allows, but fewer members. */
  ghost predicate Overlooked(calls: seq<Call>, flags: seq<bool>, window: int, limit: int, n: nat)
    requires n < |calls| == |flags|
  {
    var from, to := calls[n].now - window, calls[n].now;
    |MembersIn(calls, flags, n, from, to)| < limit <= |PickedIn(Times(calls), flags, n, from, to)|
  }

  /**
   * A call is admitted against the promise exactly when its window's admissions reach the limit and
   * its members do not.
   */
  lemma OverlookedExactly(calls: seq<Call>, flags: seq<bool>, window: int, limit: int, n: nat)
    requires n < |calls| == |flags| && Answers(calls, flags) && SharedClock(calls)
    requires OneWindow(calls, window) && OneLimit(calls, limit)
    ensures flags[n] && |PickedIn(Times(calls), flags, n, calls[n].now - window, calls[n].now)| >= limit
       <==> Overlooked(calls, flags, window, limit, n)
  {
    hide Answers, SharedClock, SeenAt;
    SeenIsWindow(calls, flags, window, n);
    SeenCount(calls, flags, n, MembersIn(calls, flags, n, calls[n].now - window, calls[n].now));
  }

  /** One admission more in its own window. */
  lemma OwnPick(calls: seq<Call>, flags: seq<bool>, window: int, n: nat)
    requires n < |calls| == |flags| && flags[n] && window > 0
    ensures var from, to := calls[n].now - window, calls[n].now;
            |PickedIn(Times(calls), flags, n + 1, from, to)| == |PickedIn(Times(calls), flags, n, from, to)| + 1
  {
    var from, to := calls[n].now - window, calls[n].now;
    assert PickedIn(Times(calls), flags, n + 1, from, to) == PickedIn(Times(calls), flags, n, from, to) + {n};
  }

  lemma KeptAt(calls: seq<Call>, flags: seq<bool>, window: int, limit: int, n: nat)
    requires n < |calls| == |flags| && Answers(calls, flags) && SharedClock(calls)
    requires OneWindow(calls, window) && OneLimit(calls, limit) && window > 0
    ensures var times := Times(calls);
            (flags[n] ==> |PickedIn(times, flags, n + 1, times[n] - window, times[n])| <= limit)
            <==> !Overlooked(calls, flags, window, limit, n)
  {
    OverlookedExactly(calls, flags, window, limit, n);
    hide Answers, SharedClock, PickedIn, Overlooked;
    if flags[n] { OwnPick(calls, flags, window, n); }
  }

  /**
   * On one clock, with one policy and members of whatever freshness, the script keeps its promise
   * exactly when no call finds fewer members than the limit among at least as many admissions.
   */
  lemma PromiseKeptExactly(calls: seq<Call>, flags: seq<bool>, window: int, limit: int)
    requires |flags| == |calls| && Answers(calls, flags) && SharedClock(calls)
    requires OneWindow(calls, window) && OneLimit(calls, limit) && window > 0
    ensures KeepsPromise(Times(calls), flags, window, limit)
       <==> forall n :: 0 <= n < |calls| ==> !Overlooked(calls, flags, window, limit, n)
  {
    hide Answers, SharedClock, OneWindow, OneLimit, Overlooked, PickedIn;
    forall n | 0 <= n < |calls|
      ensures var times := Times(calls);
              (flags[n] ==> |PickedIn(times, flags, n + 1, times[n] - window, times[n])| <= limit)
              <==> !Overlooked(calls, flags, window, limit, n)
    {
      KeptAt(calls, flags, window, limit, n);
    }
  }

  /** As long as past answers agree with the reference, this one does exactly when the call overlooks nothing. */
  lemma AgreesAt(calls: seq<Call>, flags: seq<bool>, window: int, limit: int, n: nat)
    requires n < |calls| == |flags| && Answers(calls, flags) && SharedClock(calls)
    requires OneWindow(calls, window) && OneLimit(calls, limit)
    requires forall j :: 0 <= j < n ==> flags[j] == Reference(calls, j)
    ensures flags[n] == Reference(calls, n) <==> !Overlooked(calls, flags, window, limit, n)
  {
    hide Answers, SharedClock, SeenAt, Reference, PickedIn, MembersIn, Times;
    var from, to := calls[n].now - window, calls[n].now;
    SeenIsWindow(calls, flags, window, n);
    SeenCount(calls, flags, n, MembersIn(calls, flags, n, from, to));
    FewerMembers(calls, flags, n, from, to);
    SamePast(calls, flags, n);
  }

  lemma {:induction false} AgreesUpTo(calls: seq<Call>, flags: seq<bool>, window: int, limit: int, n: nat)
    requires n < |calls| == |flags| && Answers(calls, flags) && SharedClock(calls)
    requires OneWindow(calls, window) && OneLimit(calls, limit)
    requires forall i :: 0 <= i <= n ==> !Overlooked(calls, flags, window, limit, i)
    ensures flags[n] == Reference(calls, n)
    decreases n
  {
    hide Answers, SharedClock, Overlooked, Reference, OneWindow, OneLimit;
    forall j | 0 <= j < n ensures flags[j] == Reference(calls, j) {
      AgreesUpTo(calls, flags, window, limit, j);
    }
    AgreesAt(calls, flags, window, limit, n);
  }

  /**
   * On one clock, with one policy and members of whatever freshness, every answer is the full
   * history's exactly when no call finds fewer members than the limit among at least as many admissions.
   */
  lemma RefinesExactly(calls: seq<Call>, flags: seq<bool>, window: int, limit: int)
    requires |flags| == |calls| && Answers(calls, flags) && SharedClock(calls)
    requires OneWindow(calls, window) && OneLimit(calls, limit)
    ensures (forall n :: 0 <= n < |calls| ==> flags[n] == Reference(calls, n))
       <==> forall n :: 0 <= n < |calls| ==> !Overlooked(calls, flags, window, limit, n)
  {
    hide Answers, SharedClock, Overlooked, Reference, OneWindow, OneLimit;
    if forall n :: 0 <= n < |calls| ==> !Overlooked(calls, flags, window, limit, n) {
      forall n | 0 <= n < |calls| ensures flags[n] == Reference(calls, n) {
        AgreesUpTo(calls, flags, window, limit, n);
      }
    } else {
      var n: nat :| n < |calls| && Overlooked(calls, flags, window, limit, n);
      if forall i :: 0 <= i < |calls| ==> flags[i] == Reference(calls, i) {
        AgreesAt(calls, flags, window, limit, n);
      }
    }
  }

  /** Two admitted calls that share a member leave fewer members than calls. */
  lemma SharedIsFewer(calls: seq<Call>, flags: seq<bool>, n: nat, from: int, to: int, i: int, j: int)
    requires n <= |calls| == |flags|
    requires i in PickedIn(Times(calls), flags, n, from, to) && j in PickedIn(Times(calls), flags, n, from, to)
    requires i < j && calls[i].Entry() == calls[j].Entry()
    ensures |MembersIn(calls, flags, n, from, to)| < |PickedIn(Times(calls), flags, n, from, to)|
  {
    PickedIsMember(calls, flags, n, from, to);
    var picked, members := PickedIn(Times(calls), flags, n, from, to), MembersIn(calls, flags, n, from, to);
    hide PickedIn, MembersIn, Entries;
    forall m | m in members ensures exists a :: a in picked - {j} && Entries(calls, n)[a] == m {
      var a := MemberIsPicked(calls, flags, n, from, to, m);
      assert (if a == j then i else a) in picked - {j};
    }
    ImageNoLarger(picked - {j}, members, Entries(calls, n));
  }

  lemma RepetitionsOverwrite(calls: seq<Call>, flags: seq<bool>, n: nat, from: int, to: int)
    requires n <= |calls| == |flags|
    ensures var picked := PickedIn(Times(calls), flags, n, from, to);
            |MembersIn(calls, flags, n, from, to)| == |picked| <==>
            forall i, j :: i in picked && j in picked && i < j ==> calls[i].Entry() != calls[j].Entry()
  {
    var picked := PickedIn(Times(calls), flags, n, from, to);
    if i, j :| i in picked && j in picked && i < j && calls[i].Entry() == calls[j].Entry() {
      SharedIsFewer(calls, flags, n, from, to, i, j);
    } else {
      DistinctCounts(calls, flags, n, from, to);
    }
  }

  lemma RepeatedMemberAdmitted(calls: seq<Call>, flags: seq<bool>, n: nat)
    requires n < |calls| == |flags| && Answers(calls, flags) && SharedClock(calls) && OneWindow(calls, 1000)
    requires forall i :: 0 <= i < |calls| ==> calls[i] == calls[0]
    requires calls[0].limit == 2
    ensures flags[n]
  {
    var from, to := calls[n].now - 1000, calls[n].now;
    var members := MembersIn(calls, flags, n, from, to);
    SeenIsWindow(calls, flags, 1000, n);
    SeenCount(calls, flags, n, members);
    SubsetCardinality(members, {calls[0].Entry()});
  }

  lemma ThreeAdmitted(calls: seq<Call>, flags: seq<bool>)
    requires var c := Call(5000, 5000, 2, 1000, 7); calls == [c, c, c]
    requires |flags| == 3 && flags[0] && flags[1] && flags[2]
    ensures !KeepsPromise(Times(calls), flags, 1000, 2)
  {
    assert PickedIn(Times(calls), flags, 3, 4000, 5000) == {0, 1, 2};
  }

  /**
   * Repetition breaks the promise itself: three calls in one millisecond that draw the same
   * suffix share one entry, and a limit of two admits all three.
   */
  lemma RepeatedMembersBreakThePromise(calls: seq<Call>, flags: seq<bool>)
    requires var c := Call(5000, 5000, 2, 1000, 7); calls == [c, c, c]
    requires |flags| == |calls| && Answers(calls, flags)
    ensures SharedClock(calls) && OneWindow(calls, 1000) && OneLimit(calls, 2)
    ensures !KeepsPromise(Times(calls), flags, 1000, 2)
  {
    hide Answers, KeepsPromise, Times;
    RepeatedMemberAdmitted(calls, flags, 0);
    RepeatedMemberAdmitted(calls, flags, 1);
    RepeatedMemberAdmitted(calls, flags, 2);
    ThreeAdmitted(calls, flags);
  }
}
