/**
 * What the sliding-window log holds, for any clocks and any mixture of policies: which members are in
 * it and when its key expires, told by the calls alone.
 */
module LogContents {
  import opened SlidingWindow
  import opened Wrappers

  /** Call c removes members of this score. */
  predicate Evicts(c: Call, score: int) {
    0 <= score <= c.now - c.window
  }

  /** q is the last call admitted before call i. */
  ghost predicate LastAdmitted(calls: seq<Call>, q: int, i: nat)
    requires i <= |calls|
  {
    0 <= q < i && Allowed(calls, q) && forall p :: q < p < i ==> !Allowed(calls, p)
  }

  /** Call i comes more than a window after the last admission, in the server's time and by that admission's window. */
  ghost predicate TooLate(calls: seq<Call>, i: nat)
    requires i < |calls|
  {
    exists q :: LastAdmitted(calls, q, i) && calls[i].server > calls[q].server + calls[q].window
  }

  /** Call i leaves a member of this score in the log. */
  ghost predicate Spares(calls: seq<Call>, i: nat, score: int)
    requires i < |calls|
  {
    !Evicts(calls[i], score) && !TooLate(calls, i) && (Allowed(calls, i) ==> calls[i].window > 0)
  }

  /** Call j was admitted with a window to keep its member for, and every call since has spared it. */
  ghost predicate Kept(calls: seq<Call>, j: int, n: nat)
    requires n <= |calls|
  {
    && 0 <= j < n && Allowed(calls, j) && calls[j].window > 0
    && forall i :: j < i < n ==> Spares(calls, i, calls[j].now)
  }

  ghost predicate Present(calls: seq<Call>, n: nat, m: Member)
    requires n <= |calls|
  {
    exists j :: 0 <= j < n && Kept(calls, j, n) && calls[j].Entry() == m
  }

  /** The key's expiry was set by the last admission; a key without members has none. */
  ghost predicate Expires(calls: seq<Call>, n: nat, log: Log)
    requires n <= |calls|
  {
    if log.zset == map[] then log.expireAt == None
    else exists q :: LastAdmitted(calls, q, n) && log.expireAt == Some(calls[q].server + calls[q].window)
  }

  ghost predicate Described(calls: seq<Call>, n: nat, log: Log)
    requires n <= |calls|
  {
    && (forall m :: m in log.zset <==> Present(calls, n, m))
    && (forall m :: m in log.zset ==> log.zset[m] == m.at)
    && Expires(calls, n, log)
  }

  /** A key is found expired exactly when its call is too late. */
  lemma DeadExactly(calls: seq<Call>, n: nat, log: Log)
    requires n < |calls| && Expires(calls, n, log)
    ensures log.zset != map[] ==> (TooLate(calls, n) <==> Alive(log, calls[n].server) == EMPTY)
    ensures log.zset != map[] && !TooLate(calls, n) ==> Alive(log, calls[n].server) == log
    ensures log.zset == map[] ==> Alive(log, calls[n].server) == EMPTY
  {
    hide Allowed;
    if log.zset != map[] {
      var q :| LastAdmitted(calls, q, n) && log.expireAt == Some(calls[q].server + calls[q].window);
      forall p | LastAdmitted(calls, p, n) ensures p == q {}
    }
  }

  lemma EvictedExactly(log: Log, upTo: int, m: Member)
    requires forall k :: k in log.zset ==> log.zset[k] == k.at
    ensures m in Evict(log, upTo).zset <==> m in log.zset && !(0 <= m.at <= upTo)
    ensures m in Evict(log, upTo).zset ==> Evict(log, upTo).zset[m] == m.at && Evict(log, upTo).expireAt == log.expireAt
    ensures Evict(log, upTo).zset == map[] ==> Evict(log, upTo) == EMPTY
    ensures Evict(log, upTo).zset != map[] ==> Evict(log, upTo).expireAt == log.expireAt
  {
  }

  /**
   * What call n counts: the members of earlier admissions kept so far that it neither evicts nor comes
   * too late for.
   */
  lemma SeenFrom(calls: seq<Call>, n: nat, log: Log, m: Member)
    requires n < |calls| && Described(calls, n, log)
    ensures m in Seen(log, calls[n]).zset
      <==> (Present(calls, n, m) && !Evicts(calls[n], m.at) && !TooLate(calls, n))
    ensures m in Seen(log, calls[n]).zset ==> Seen(log, calls[n]).zset[m] == m.at
  {
    hide Present, Expires, TooLate, Evict, Alive;
    DeadExactly(calls, n, log);
    var alive := Alive(log, calls[n].server);
    assert log.zset == map[] || TooLate(calls, n) ==> alive == EMPTY;
    assert log.zset != map[] && !TooLate(calls, n) ==> alive == log;
    assert m in log.zset ==> log.zset != map[];
    EvictedExactly(alive, calls[n].now - calls[n].window, m);
  }

  lemma KeptNext(calls: seq<Call>, j: int, n: nat)
    requires n < |calls|
    ensures Kept(calls, j, n + 1) <==>
      if j == n then Allowed(calls, n) && calls[n].window > 0
      else Kept(calls, j, n) && Spares(calls, n, calls[j].now)
  {
    hide Allowed, Spares;
  }

  /** After call n, m is there if it was and was spared, or if call n put it there. */
  lemma PresentNext(calls: seq<Call>, n: nat, m: Member)
    requires n < |calls|
    ensures Present(calls, n + 1, m)
      <==> ((Present(calls, n, m) && Spares(calls, n, m.at))
            || (Allowed(calls, n) && calls[n].window > 0 && calls[n].Entry() == m))
  {
    hide Kept, Spares, Allowed;
    if Present(calls, n + 1, m) {
      var j :| 0 <= j < n + 1 && Kept(calls, j, n + 1) && calls[j].Entry() == m;
      KeptNext(calls, j, n);
    }
    if Present(calls, n, m) && Spares(calls, n, m.at) {
      var j :| 0 <= j < n && Kept(calls, j, n) && calls[j].Entry() == m;
      KeptNext(calls, j, n);
    }
    KeptNext(calls, n, n);
  }

  lemma NextMember(log: Log, c: Call, m: Member)
    ensures m in Next(log, c).zset
      <==> (if Grants(log, c) then c.window > 0 && (m in Seen(log, c).zset || m == c.Entry())
            else m in Seen(log, c).zset)
    ensures m in Next(log, c).zset ==>
      Next(log, c).zset[m] == if m == c.Entry() && Grants(log, c) then c.now else Seen(log, c).zset[m]
  {
    hide Seen, Grants;
  }

  lemma MemberNext(calls: seq<Call>, n: nat, log: Log, m: Member)
    requires n < |calls| && Described(calls, n, log) && (Allowed(calls, n) <==> Grants(log, calls[n]))
    ensures m in Next(log, calls[n]).zset <==> Present(calls, n + 1, m)
    ensures m in Next(log, calls[n]).zset ==> Next(log, calls[n]).zset[m] == m.at
  {
    hide Described, Present, TooLate, Seen, Grants, Allowed, Next, Evicts;
    SeenFrom(calls, n, log, m);
    PresentNext(calls, n, m);
    NextMember(log, calls[n], m);
  }

  lemma SeenExpires(calls: seq<Call>, n: nat, log: Log)
    requires n < |calls| && Expires(calls, n, log)
    ensures Expires(calls, n, Seen(log, calls[n]))
  {
    DeadExactly(calls, n, log);
    hide TooLate, LastAdmitted;
  }

  lemma RefusedStays(calls: seq<Call>, n: nat, log: Log)
    requires n < |calls| && Expires(calls, n, log) && !Allowed(calls, n)
    ensures Expires(calls, n + 1, log)
  {
    hide Allowed;
    if log.zset != map[] {
      var q :| LastAdmitted(calls, q, n) && log.expireAt == Some(calls[q].server + calls[q].window);
      assert LastAdmitted(calls, q, n + 1);
    }
  }

  lemma AdmittedSets(calls: seq<Call>, n: nat, log: Log)
    requires n < |calls| && Allowed(calls, n)
    requires log == EMPTY || log.expireAt == Some(calls[n].server + calls[n].window)
    requires log == EMPTY || log.zset != map[]
    ensures Expires(calls, n + 1, log)
  {
    hide Allowed;
    assert LastAdmitted(calls, n, n + 1);
  }

  lemma ExpiryNext(calls: seq<Call>, n: nat, log: Log)
    requires n < |calls| && Expires(calls, n, log) && (Allowed(calls, n) <==> Grants(log, calls[n]))
    ensures Expires(calls, n + 1, Next(log, calls[n]))
  {
    SeenExpires(calls, n, log);
    hide Seen, Grants, Allowed, Expires;
    if Allowed(calls, n) {
      assert calls[n].window > 0 ==> calls[n].Entry() in Next(log, calls[n]).zset;
      AdmittedSets(calls, n, Next(log, calls[n]));
    } else {
      RefusedStays(calls, n, Seen(log, calls[n]));
    }
  }

  lemma DescribedNext(calls: seq<Call>, n: nat, log: Log)
    requires n < |calls| && Described(calls, n, log) && (Allowed(calls, n) <==> Grants(log, calls[n]))
    ensures Described(calls, n + 1, Next(log, calls[n]))
  {
    hide Grants, Allowed, Present, Expires, Next;
    ExpiryNext(calls, n, log);
    forall m ensures m in Next(log, calls[n]).zset <==> Present(calls, n + 1, m)
             ensures m in Next(log, calls[n]).zset ==> Next(log, calls[n]).zset[m] == m.at
    {
      MemberNext(calls, n, log, m);
    }
  }

  lemma NothingYet(calls: seq<Call>)
    ensures Described(calls, 0, EMPTY)
  {
    hide Allowed;
  }

  /**
   * What the log is after any calls: it holds exactly the members of admitted calls that no call since
   * has evicted or come too late for, each scored by its timestamp, and its key expires one window, in
   * the server's time, after the last admission. Refused calls neither add nor prolong anything.
   */
  lemma {:induction false} LogExactly(calls: seq<Call>, n: nat)
    requires n <= |calls|
    ensures Described(calls, n, StateAt(calls, n))
  {
    hide Described, Next, Grants, Allowed;
    if n == 0 {
      NothingYet(calls);
    } else {
      LogExactly(calls, n - 1);
      AllowedGrants(calls, n - 1);
      DescribedNext(calls, n - 1, StateAt(calls, n - 1));
    }
  }

  /**
   * What a call counts, told by the calls alone; it is admitted exactly when those members are fewer
   * than its limit.
   */
  lemma SeenExactly(calls: seq<Call>, n: nat)
    requires n < |calls|
    ensures forall m :: m in SeenAt(calls, n)
                   <==> (Present(calls, n, m) && !Evicts(calls[n], m.at) && !TooLate(calls, n))
    ensures Allowed(calls, n) <==> |SeenAt(calls, n).Keys| < calls[n].limit
  {
    LogExactly(calls, n);
    hide Described, Present, TooLate;
    forall m ensures m in SeenAt(calls, n)
                <==> (Present(calls, n, m) && !Evicts(calls[n], m.at) && !TooLate(calls, n))
    {
      SeenFrom(calls, n, StateAt(calls, n), m);
    }
    assert |SeenAt(calls, n).Keys| == |SeenAt(calls, n)|;
  }

  lemma {:induction false} SomeLastAdmitted(calls: seq<Call>, j: nat, n: nat) returns (q: int)
    requires j < n <= |calls| && Allowed(calls, j)
    ensures LastAdmitted(calls, q, n)
  {
    hide Allowed;
    if Allowed(calls, n - 1) {
      q := n - 1;
    } else {
      q := SomeLastAdmitted(calls, j, n - 1);
    }
  }

  /**
   * Once every admission is more than its window ago in the server's time, a call counts nothing,
   * whatever was refused since and whatever the gateways' clocks say, and any positive limit admits it.
   */
  lemma IdleKeyIsEmpty(calls: seq<Call>, n: nat)
    requires n < |calls|
    requires forall q :: 0 <= q < n && Allowed(calls, q) ==> calls[q].server + calls[q].window < calls[n].server
    ensures SeenAt(calls, n) == map[] && (Allowed(calls, n) <==> calls[n].limit > 0)
  {
    SeenExactly(calls, n);
    hide Allowed, SeenAt, Spares, Evicts;
    forall m ensures m !in SeenAt(calls, n) {
      if Present(calls, n, m) {
        var j :| 0 <= j < n && Kept(calls, j, n) && calls[j].Entry() == m;
        var q := SomeLastAdmitted(calls, j, n);
        assert TooLate(calls, n);
      }
    }
    assert SeenAt(calls, n) == map[];
  }
}
