/**
 * The fixed-window counter: one integer key per client, incremented by every call, that the
 * server drops once its window, started by the call that created it, has passed.
 */
module FixedWindow {
  import opened Counting
  import opened Wrappers

  datatype Counter = Counter(count: nat, expireAt: int)

  function Alive(key: Option<Counter>, server: int): Option<Counter> {
    if key.Some? && server > key.value.expireAt then None else key
  }

  /** The value INCR returns to a call made at server time `server`. */
  function Current(key: Option<Counter>, server: int): (count: nat)
    ensures count > 0
  {
    match Alive(key, server)
    case None => 1
    case Some(counter) => counter.count + 1
  }

  function Next(key: Option<Counter>, server: int, window: int): Option<Counter> {
    match Alive(key, server)
    case None => if window <= 0 then None else Some(Counter(1, server + window))
    case Some(counter) => Some(Counter(counter.count + 1, counter.expireAt))
  }

  /**
   * What becomes of a call: it is answered, its answer is lost after the script ran, or it never
   * reaches the server.
   */
  datatype Fate = Answered | Unheard | Unreachable

  class Key {
    var value: Option<nat>
    var expireAt: Option<int>

    /** A stored counter always carries an expiry. */
    ghost predicate Valid()
      reads this
    {
      (value.Some? <==> expireAt.Some?) && (value.Some? ==> value.value > 0)
    }

    ghost function Contents(): Option<Counter>
      requires Valid()
      reads this
    {
      if value.None? then None else Some(Counter(value.value, expireAt.value))
    }

    constructor ()
      ensures Valid() && Contents() == None
    {
      value, expireAt := None, None;
    }

    method Incr(server: int) returns (current: nat)
      requires Valid()
      modifies this
      ensures current == Current(old(Contents()), server)
      ensures value == Some(current)
      ensures current == 1 ==> expireAt == None
      ensures current > 1 ==>
        Valid() && old(expireAt).Some? && Contents() == Some(Counter(current, old(expireAt).value))
    {
      if expireAt.Some? && server > expireAt.value {
        value, expireAt := None, None;
      }
      current := if value.None? then 1 else value.value + 1;
      value := Some(current);
    }

    /** The script, as the gateway calls it: an error, whether or not the script ran, lets the request pass. */
    method Allow(server: int, limit: int, window: int, fate: Fate) returns (allowed: bool, failed: bool)
      requires Valid()
      modifies this
      ensures Valid() && failed == !fate.Answered?
      ensures allowed <==> failed || Current(old(Contents()), server) <= limit
      ensures Contents() == if fate.Unreachable? then old(Contents()) else Next(old(Contents()), server, window)
    {
      if fate.Unreachable? {
        return true, true;
      }
      var current := Incr(server);
      if current == 1 {
        if window <= 0 {
          value, expireAt := None, None;
        } else {
          expireAt := Some(server + window);
        }
      }
      if fate.Unheard? {
        return true, true;
      }
      return current <= limit, false;
    }
  }

  // ---------- Runs ----------

  ghost predicate Ordered(servers: seq<int>) {
    forall i, j :: 0 <= i <= j < |servers| ==> servers[i] <= servers[j]
  }

  function StateAt(servers: seq<int>, window: int, n: nat): Option<Counter>
    requires n <= |servers|
  {
    if n == 0 then None else Next(StateAt(servers, window, n - 1), servers[n - 1], window)
  }

  function CountAt(servers: seq<int>, window: int, n: nat): nat
    requires n < |servers|
  {
    Current(StateAt(servers, window, n), servers[n])
  }

  ghost predicate Answers(servers: seq<int>, window: int, limit: int, flags: seq<bool>)
    requires |flags| == |servers|
  {
    forall n :: 0 <= n < |servers| ==> flags[n] == (CountAt(servers, window, n) <= limit)
  }

  /** Calls o..n all used the counter that call o created, and it had not expired. */
  ghost predicate OneLifetime(servers: seq<int>, window: int, o: nat, n: nat)
    requires o <= n < |servers|
  {
    && (forall j :: o <= j <= n ==> CountAt(servers, window, j) == j - o + 1)
    && StateAt(servers, window, n + 1) == Some(Counter(n - o + 1, servers[o] + window))
    && servers[n] <= servers[o] + window
  }

  /** Every call belongs to one lifetime, and the call before it that lifetime's start left an expired counter. */
  lemma {:induction false} Lifetime(servers: seq<int>, window: int, n: nat) returns (o: nat)
    requires n < |servers| && window > 0
    ensures o <= n && OneLifetime(servers, window, o, n)
    ensures o > 0 ==> StateAt(servers, window, o).Some? && servers[o] > StateAt(servers, window, o).value.expireAt
    decreases n
  {
    if n == 0 {
      o := 0;
    } else {
      o := Lifetime(servers, window, n - 1);
      if servers[n] > servers[o] + window {
        o := n;
      }
    }
  }

  /** Within one lifetime the first `limit` calls are admitted and no others. */
  lemma {:induction false} LifetimeAdmits(servers: seq<int>, window: int, limit: nat, flags: seq<bool>, o: nat,
                                          lo: nat, hi: nat)
    requires |flags| == |servers| && Answers(servers, window, limit, flags)
    requires o <= lo <= hi <= |servers|
    requires forall j :: lo <= j < hi ==> CountAt(servers, window, j) == j - o + 1
    ensures Count(flags, lo, hi) == if o + limit <= lo then 0 else if o + limit <= hi then o + limit - lo else hi - lo
    decreases hi
  {
    if lo < hi {
      LifetimeAdmits(servers, window, limit, flags, o, lo, hi - 1);
      assert flags[hi - 1] == (CountAt(servers, window, hi - 1) <= limit);
    }
  }

  /** A whole lifetime admits exactly the lesser of its calls and the limit. */
  lemma WholeLifetime(servers: seq<int>, window: int, limit: nat, flags: seq<bool>, o: nat, n: nat)
    requires |flags| == |servers| && Answers(servers, window, limit, flags)
    requires o <= n < |servers| && OneLifetime(servers, window, o, n)
    ensures Count(flags, o, n + 1) == if n + 1 - o <= limit then n + 1 - o else limit
  {
    LifetimeAdmits(servers, window, limit, flags, o, o, n + 1);
  }

  /**
   * The burst bound: calls that together span less than one window are admitted at most
   * 2 * limit - 1 times. They meet at most two lifetimes, and the opening call of the first lies outside.
   */
  lemma BurstBound(servers: seq<int>, window: int, limit: nat, flags: seq<bool>, lo: nat, hi: nat)
    requires |flags| == |servers| && Answers(servers, window, limit, flags)
    requires Ordered(servers) && window > 0
    requires lo < hi <= |servers| && servers[hi - 1] - servers[lo] < window
    ensures Count(flags, lo, hi) <= if limit == 0 then 0 else 2 * limit - 1
  {
    hide Answers;
    var m := Lifetime(servers, window, hi - 1);
    if m <= lo {
      LifetimeAdmits(servers, window, limit, flags, m, lo, hi);
    } else {
      var o := Lifetime(servers, window, m - 1);
      assert servers[m] <= servers[hi - 1];
      assert servers[o] < servers[lo];
      assert o < lo;
      CountSplit(flags, lo, m, hi);
      LifetimeAdmits(servers, window, limit, flags, m, m, hi);
      LifetimeAdmits(servers, window, limit, flags, o, lo, m);
    }
  }

  /** The admissions with a server time in [from, from + window). */
  function AdmittedIn(servers: seq<int>, flags: seq<bool>, from: int, window: int): set<int>
    requires |flags| == |servers|
  {
    set j | 0 <= j < |servers| && flags[j] && from <= servers[j] < from + window
  }

  /** Any half-open interval one window long admits at most 2 * limit - 1 calls. */
  lemma IntervalBound(servers: seq<int>, window: int, limit: nat, flags: seq<bool>, from: int)
    requires |flags| == |servers| && Answers(servers, window, limit, flags)
    requires Ordered(servers) && window > 0
    ensures |AdmittedIn(servers, flags, from, window)| <= if limit == 0 then 0 else 2 * limit - 1
  {
    hide Answers;
    var lo, hi := Before(servers, from), Before(servers, from + window);
    if lo < hi {
      BurstBound(servers, window, limit, flags, lo, hi);
      CountIsCardinality(flags, lo, hi);
      assert AdmittedIn(servers, flags, from, window) == set j | lo <= j < hi && flags[j];
    } else {
      assert AdmittedIn(servers, flags, from, window) == {};
    }
  }

  /** How many calls come before time t. */
  function Before(servers: seq<int>, t: int): (n: nat)
    requires Ordered(servers)
    ensures n <= |servers|
    ensures forall j :: 0 <= j < |servers| ==> (j < n <==> servers[j] < t)
  {
    if |servers| == 0 then 0
    else
      var n := Before(servers[..|servers| - 1], t);
      if servers[|servers| - 1] < t then |servers| else n
  }

  /** One call, a burst just before its window ends, and a burst just after. */
  function WorstCase(limit: nat, window: int): (servers: seq<int>)
    requires limit > 0
    ensures |servers| == 2 * limit
  {
    seq(2 * limit, i => if i == 0 then 0 else if i < limit then window else window + 1)
  }

  lemma {:induction false} WorstCaseCounts(limit: nat, window: int, n: nat)
    requires limit > 0 && window > 1 && n < 2 * limit
    ensures var servers := WorstCase(limit, window);
            && CountAt(servers, window, n) == (if n < limit then n + 1 else n - limit + 1)
            && StateAt(servers, window, n + 1)
            == Some(Counter(if n < limit then n + 1 else n - limit + 1, if n < limit then window else 2 * window + 1))
    decreases n
  {
    if n > 0 {
      WorstCaseCounts(limit, window, n - 1);
    }
  }

  /**
   * The bound is reached: for every limit and every window of at least two ticks some run admits
   * 2 * limit - 1 in one window.
   */
  lemma BoundIsReached(limit: nat, window: int, flags: seq<bool>)
    requires limit > 0 && window > 1
    requires |flags| == 2 * limit && Answers(WorstCase(limit, window), window, limit, flags)
    ensures Ordered(WorstCase(limit, window))
    ensures |AdmittedIn(WorstCase(limit, window), flags, window, window)| == 2 * limit - 1
  {
    var servers := WorstCase(limit, window);
    forall n | 0 <= n < 2 * limit ensures flags[n] {
      WorstCaseCounts(limit, window, n);
    }
    AllCounted(flags, 1, 2 * limit);
    CountIsCardinality(flags, 1, 2 * limit);
    assert AdmittedIn(servers, flags, window, window) == set j | 1 <= j < 2 * limit && flags[j];
  }
}
