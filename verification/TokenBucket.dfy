/**
 * The in-memory token bucket: one bucket per client, created full, refilled lazily from the
 * time elapsed since its last use, and charged one token per admitted call.
 */
module TokenBucket {
  import opened Counting

  /** What a bucket holds: its tokens and the time they were last brought up to date. */
  datatype Level = Level(tokens: real, lastRefill: real) {
    /** The tokens at time t, were there no capacity. */
    function Worth(t: real, rate: real): real {
      tokens + (t - lastRefill) * rate
    }

    function Refilled(t: real, rate: real, capacity: real): real {
      if Worth(t, rate) > capacity then capacity else Worth(t, rate)
    }

    function Charged(t: real, rate: real, capacity: real): Level {
      var tokens := Refilled(t, rate, capacity);
      Level(if tokens >= 1.0 then tokens - 1.0 else tokens, t)
    }
  }

  datatype Call = Call(client: string, now: real)

  /** The bucket a client is charged from at time t: its own, or a full one created now. */
  function Found(levels: map<string, Level>, client: string, t: real, capacity: real): Level {
    if client in levels then levels[client] else Level(capacity, t)
  }

  function Next(levels: map<string, Level>, c: Call, rate: real, capacity: real): map<string, Level> {
    levels[c.client := Found(levels, c.client, c.now, capacity).Charged(c.now, rate, capacity)]
  }

  class Bucket {
    var tokens: real
    var lastRefill: real

    constructor (tokens: real, lastRefill: real)
      ensures Value() == Level(tokens, lastRefill)
    {
      this.tokens, this.lastRefill := tokens, lastRefill;
    }

    function Value(): Level
      reads this
    {
      Level(tokens, lastRefill)
    }

    /** Refill for the time elapsed, then take a token if there is one. */
    method Take(now: real, rate: real, capacity: real) returns (allowed: bool)
      modifies this
      ensures allowed <==> old(Value()).Refilled(now, rate, capacity) >= 1.0
      ensures Value() == old(Value()).Charged(now, rate, capacity)
    {
      var elapsed := now - lastRefill;
      tokens := tokens + elapsed * rate;
      if tokens > capacity {
        tokens := capacity;
      }
      lastRefill := now;
      assert tokens == old(Value()).Refilled(now, rate, capacity);
      allowed := tokens >= 1.0;
      if allowed {
        tokens := tokens - 1.0;
      }
    }
  }

  class Limiter {
    var buckets: map<string, Bucket>
    const capacity: real
    const rate: real

    constructor (rate: real, capacity: real)
      ensures this.rate == rate && this.capacity == capacity
      ensures Valid() && Levels() == map[]
    {
      this.rate, this.capacity := rate, capacity;
      buckets := map[];
    }

    /** No two clients share a bucket. */
    ghost predicate Valid()
      reads this
    {
      forall a, b :: a in buckets && b in buckets && a != b ==> buckets[a] != buckets[b]
    }

    ghost function Levels(): map<string, Level>
      reads this, buckets.Values
    {
      map client | client in buckets :: buckets[client].Value()
    }

    /** The requested limit and window are accepted and ignored. */
    method Allow(client: string, limit: int, window: int, now: real) returns (allowed: bool)
      requires Valid()
      modifies this, buckets.Values
      ensures Valid() && fresh(buckets.Values - old(buckets.Values))
      ensures allowed <==> Found(old(Levels()), client, now, capacity).Refilled(now, rate, capacity) >= 1.0
      ensures Levels() == Next(old(Levels()), Call(client, now), rate, capacity)
    {
      if client !in buckets {
        Create(client, now);
      }
      assert Levels()[client] == Found(old(Levels()), client, now, capacity);
      allowed := Charge(client, now);
    }

    method Create(client: string, now: real)
      requires Valid() && client !in buckets
      modifies this`buckets
      ensures Valid() && fresh(buckets.Values - old(buckets.Values))
      ensures Levels() == old(Levels())[client := Level(capacity, now)]
    {
      var bucket := new Bucket(capacity, now);
      buckets := buckets[client := bucket];
    }

    method Charge(client: string, now: real) returns (allowed: bool)
      requires Valid() && client in buckets
      modifies buckets[client]
      ensures buckets == old(buckets)
      ensures allowed <==> old(Levels())[client].Refilled(now, rate, capacity) >= 1.0
      ensures Levels() == old(Levels())[client := old(Levels())[client].Charged(now, rate, capacity)]
    {
      ghost var before := Levels();
      allowed := buckets[client].Take(now, rate, capacity);
      assert forall other :: other in buckets && other != client ==> Levels()[other] == before[other];
    }
  }

  // ---------- Runs of many clients ----------

  function StateAt(calls: seq<Call>, rate: real, capacity: real, n: nat): map<string, Level>
    requires n <= |calls|
  {
    if n == 0 then map[] else Next(StateAt(calls, rate, capacity, n - 1), calls[n - 1], rate, capacity)
  }

  /** The tokens call n finds, before it is charged. */
  function TokensAt(calls: seq<Call>, rate: real, capacity: real, n: nat): real
    requires n < |calls|
  {
    var bucket := Found(StateAt(calls, rate, capacity, n), calls[n].client, calls[n].now, capacity);
    bucket.Refilled(calls[n].now, rate, capacity)
  }

  predicate Allowed(calls: seq<Call>, rate: real, capacity: real, n: nat)
    requires n < |calls|
  {
    TokensAt(calls, rate, capacity, n) >= 1.0
  }

  /** The admissions of one client among calls k..n, whoever else called in between. */
  function Spent(calls: seq<Call>, rate: real, capacity: real, client: string, k: nat, n: nat): nat
    requires k <= n <= |calls|
    decreases n
  {
    if k == n then 0
    else
      var last := if calls[n - 1].client == client && Allowed(calls, rate, capacity, n - 1) then 1 else 0;
      Spent(calls, rate, capacity, client, k, n - 1) + last
  }

  /** What a bucket that was full at call k, and was charged for everything since, is worth at time t before call n. */
  function Envelope(calls: seq<Call>, rate: real, capacity: real, client: string, k: nat, n: nat, t: real): real
    requires k < |calls| && k <= n <= |calls|
  {
    capacity + (t - calls[k].now) * rate - Spent(calls, rate, capacity, client, k, n) as real
  }

  /** `worth` is the least envelope over the client's calls before hi. */
  ghost predicate IsLeast(calls: seq<Call>, rate: real, capacity: real, client: string, hi: nat, n: nat, t: real,
                          worth: real)
    requires hi <= n + 1 && hi <= |calls| && n <= |calls|
  {
    && (forall k :: 0 <= k < hi && calls[k].client == client ==>
          worth <= Envelope(calls, rate, capacity, client, k, n, t))
    && (exists k :: 0 <= k < hi && calls[k].client == client
          && worth == Envelope(calls, rate, capacity, client, k, n, t))
  }

  /** A used bucket is worth, at any time, the least of its client's envelopes. */
  lemma {:induction false} BucketIsLeast(calls: seq<Call>, rate: real, capacity: real, client: string, n: nat, t: real)
    requires n <= |calls|
    ensures client in StateAt(calls, rate, capacity, n) <==> exists k :: 0 <= k < n && calls[k].client == client
    ensures client in StateAt(calls, rate, capacity, n) ==>
      IsLeast(calls, rate, capacity, client, n, n, t, StateAt(calls, rate, capacity, n)[client].Worth(t, rate))
    decreases n, 0
  {
    hide IsLeast, Level.Worth;
    if n > 0 {
      if calls[n - 1].client == client {
        TokensAreLeast(calls, rate, capacity, n - 1);
        Charge(calls, rate, capacity, n - 1, t);
      } else {
        BucketIsLeast(calls, rate, capacity, client, n - 1, t);
        if client in StateAt(calls, rate, capacity, n - 1) {
          Uncharged(calls, rate, capacity, client, n - 1, t, StateAt(calls, rate, capacity, n)[client].Worth(t, rate));
        }
      }
    }
  }

  /** Another client's call leaves the envelopes of this one as they are. */
  lemma Uncharged(calls: seq<Call>, rate: real, capacity: real, client: string, n: nat, t: real, worth: real)
    requires n < |calls| && calls[n].client != client
    requires IsLeast(calls, rate, capacity, client, n, n, t, worth)
    ensures IsLeast(calls, rate, capacity, client, n + 1, n + 1, t, worth)
  {
    forall k | 0 <= k <= n && calls[k].client == client
      ensures Envelope(calls, rate, capacity, client, k, n + 1, t) == Envelope(calls, rate, capacity, client, k, n, t)
    {
      assert k < n;
    }
    var k :| 0 <= k < n && calls[k].client == client && worth == Envelope(calls, rate, capacity, client, k, n, t);
    assert worth == Envelope(calls, rate, capacity, client, k, n + 1, t);
  }

  lemma FullNow(calls: seq<Call>, rate: real, capacity: real, client: string, n: nat)
    requires n < |calls|
    ensures Envelope(calls, rate, capacity, client, n, n, calls[n].now) == capacity
  {
    hide Allowed;
    assert (calls[n].now - calls[n].now) * rate == 0.0;
  }

  /** Taking in the call itself, whose envelope is a full bucket, caps the least one at the capacity. */
  lemma CappedIsLeast(calls: seq<Call>, rate: real, capacity: real, n: nat, worth: real)
    requires n < |calls| && IsLeast(calls, rate, capacity, calls[n].client, n, n, calls[n].now, worth)
    ensures var capped := if worth > capacity then capacity else worth;
            IsLeast(calls, rate, capacity, calls[n].client, n + 1, n, calls[n].now, capped)
  {
    var c := calls[n];
    FullNow(calls, rate, capacity, c.client, n);
    hide Envelope;
    if worth > capacity {
      assert capacity == Envelope(calls, rate, capacity, c.client, n, n, c.now);
    } else {
      var k :| 0 <= k < n && calls[k].client == c.client
          && worth == Envelope(calls, rate, capacity, c.client, k, n, c.now);
      assert 0 <= k < n + 1;
    }
  }

  lemma NewIsFull(calls: seq<Call>, rate: real, capacity: real, n: nat)
    requires n < |calls| && forall k :: 0 <= k < n ==> calls[k].client != calls[n].client
    ensures IsLeast(calls, rate, capacity, calls[n].client, n + 1, n, calls[n].now, capacity)
  {
    FullNow(calls, rate, capacity, calls[n].client, n);
    hide Envelope;
    assert capacity == Envelope(calls, rate, capacity, calls[n].client, n, n, calls[n].now);
  }

  /** The tokens a call finds are the least envelope over the client's calls up to and including it. */
  lemma {:induction false} TokensAreLeast(calls: seq<Call>, rate: real, capacity: real, n: nat)
    requires n < |calls|
    ensures IsLeast(calls, rate, capacity, calls[n].client, n + 1, n, calls[n].now, TokensAt(calls, rate, capacity, n))
    decreases n, 1
  {
    var c, levels := calls[n], StateAt(calls, rate, capacity, n);
    BucketIsLeast(calls, rate, capacity, c.client, n, c.now);
    hide IsLeast;
    if c.client in levels {
      CappedIsLeast(calls, rate, capacity, n, levels[c.client].Worth(c.now, rate));
    } else {
      NewIsFull(calls, rate, capacity, n);
      NewFindsCapacity(rate, capacity, c.now);
    }
  }

  lemma NewFindsCapacity(rate: real, capacity: real, t: real)
    ensures Level(capacity, t).Refilled(t, rate, capacity) == capacity
  {
    assert (t - t) * rate == 0.0;
  }

  /** What call n's charge and the refill until t add to a bucket's worth. */
  function Shift(calls: seq<Call>, rate: real, capacity: real, n: nat, t: real): real
    requires n < |calls|
  {
    (t - calls[n].now) * rate - if Allowed(calls, rate, capacity, n) then 1.0 else 0.0
  }

  lemma LeastShifts(calls: seq<Call>, rate: real, capacity: real, n: nat, t: real, tokens: real)
    requires n < |calls| && IsLeast(calls, rate, capacity, calls[n].client, n + 1, n, calls[n].now, tokens)
    ensures var worth := tokens + Shift(calls, rate, capacity, n, t);
            IsLeast(calls, rate, capacity, calls[n].client, n + 1, n + 1, t, worth)
  {
    hide Envelope, Shift;
    var c, shift := calls[n], Shift(calls, rate, capacity, n, t);
    forall k | 0 <= k <= n && calls[k].client == c.client
      ensures Envelope(calls, rate, capacity, c.client, k, n + 1, t)
          == Envelope(calls, rate, capacity, c.client, k, n, c.now) + shift
    {
      ShiftEnvelope(calls, rate, capacity, k, n, t);
    }
    var k :| 0 <= k < n + 1 && calls[k].client == c.client
        && tokens == Envelope(calls, rate, capacity, c.client, k, n, c.now);
    assert tokens + shift == Envelope(calls, rate, capacity, c.client, k, n + 1, t);
  }

  /** Charging call n takes the same token from the bucket as from every envelope. */
  lemma Charge(calls: seq<Call>, rate: real, capacity: real, n: nat, t: real)
    requires n < |calls|
    requires IsLeast(calls, rate, capacity, calls[n].client, n + 1, n, calls[n].now, TokensAt(calls, rate, capacity, n))
    ensures calls[n].client in StateAt(calls, rate, capacity, n + 1)
    ensures IsLeast(calls, rate, capacity, calls[n].client, n + 1, n + 1, t,
                    StateAt(calls, rate, capacity, n + 1)[calls[n].client].Worth(t, rate))
  {
    hide IsLeast;
    LeastShifts(calls, rate, capacity, n, t, TokensAt(calls, rate, capacity, n));
    ChargedWorth(calls, rate, capacity, n, t);
  }

  lemma ChargedWorth(calls: seq<Call>, rate: real, capacity: real, n: nat, t: real)
    requires n < |calls|
    ensures calls[n].client in StateAt(calls, rate, capacity, n + 1)
    ensures StateAt(calls, rate, capacity, n + 1)[calls[n].client].Worth(t, rate)
         == TokensAt(calls, rate, capacity, n) + Shift(calls, rate, capacity, n, t)
  {
  }

  lemma ShiftEnvelope(calls: seq<Call>, rate: real, capacity: real, k: nat, n: nat, t: real)
    requires k <= n < |calls|
    ensures Envelope(calls, rate, capacity, calls[n].client, k, n + 1, t)
         == Envelope(calls, rate, capacity, calls[n].client, k, n, calls[n].now) + Shift(calls, rate, capacity, n, t)
  {
    hide Allowed;
    var a, b, c := t, calls[n].now, calls[k].now;
    assert (a - c) * rate == (a - b) * rate + (b - c) * rate by { Distribute(a, b, c, rate); }
  }

  lemma Distribute(a: real, b: real, c: real, rate: real)
    ensures (a - b) * rate + (b - c) * rate == (a - c) * rate
  {
  }

  /**
   * The exact envelope: call n is admitted if and only if, counting back to each of the same
   * client's calls k, this admission and those since k fit in capacity + rate * (elapsed time).
   * It holds for any rate, any capacity and any clock, whatever the other clients do.
   */
  lemma ExactEnvelope(calls: seq<Call>, rate: real, capacity: real, n: nat)
    requires n < |calls|
    ensures Allowed(calls, rate, capacity, n) <==>
      forall k :: 0 <= k <= n && calls[k].client == calls[n].client ==>
        Spent(calls, rate, capacity, calls[n].client, k, n) as real + 1.0
        <= capacity + (calls[n].now - calls[k].now) * rate
  {
    TokensAreLeast(calls, rate, capacity, n);
    LeastDecides(calls, rate, capacity, n, TokensAt(calls, rate, capacity, n));
  }

  lemma LeastDecides(calls: seq<Call>, rate: real, capacity: real, n: nat, tokens: real)
    requires n < |calls|
    requires IsLeast(calls, rate, capacity, calls[n].client, n + 1, n, calls[n].now, tokens)
    ensures tokens >= 1.0 <==>
      forall k :: 0 <= k <= n && calls[k].client == calls[n].client ==>
        Spent(calls, rate, capacity, calls[n].client, k, n) as real + 1.0
        <= capacity + (calls[n].now - calls[k].now) * rate
  {
    hide Allowed, Spent;
    var client, t := calls[n].client, calls[n].now;
    forall k | 0 <= k <= n && calls[k].client == client && tokens >= 1.0
      ensures Spent(calls, rate, capacity, client, k, n) as real + 1.0 <= capacity + (t - calls[k].now) * rate
    {
      assert tokens <= Envelope(calls, rate, capacity, client, k, n, t);
    }
    var k :| 0 <= k < n + 1 && calls[k].client == client && tokens == Envelope(calls, rate, capacity, client, k, n, t);
    assert 0 <= k <= n;
  }

  /** A client's own clock readings never run backwards, whatever other clients' do. */
  ghost predicate OwnMonotone(calls: seq<Call>, client: string) {
    forall i, j :: 0 <= i <= j < |calls| && calls[i].client == calls[j].client == client
        ==> calls[i].now <= calls[j].now
  }

  /**
   * Over any span of calls i..j a client is admitted at most capacity + rate * (span's length) times:
   * for any rate, capacity and clock if the span ends in an admission, and wherever it ends if the
   * client's clock does not run backwards and neither rate nor capacity is negative.
   */
  lemma SpanBound(calls: seq<Call>, rate: real, capacity: real, i: nat, j: nat)
    requires i <= j < |calls| && calls[i].client == calls[j].client
    requires Allowed(calls, rate, capacity, j)
        || (OwnMonotone(calls, calls[j].client) && rate >= 0.0 && capacity >= 0.0)
    ensures Spent(calls, rate, capacity, calls[i].client, i, j + 1) as real
         <= capacity + (calls[j].now - calls[i].now) * rate
  {
    if Allowed(calls, rate, capacity, j) {
      AdmittedFits(calls, rate, capacity, i, j);
    } else {
      SpanBoundAt(calls, rate, capacity, i, j + 1, calls[j].now);
    }
  }

  /** That many admissions fit in a full bucket and the refill of some elapsed time. */
  predicate Fits(spent: int, rate: real, capacity: real, elapsed: real) {
    spent as real <= capacity + elapsed * rate
  }

  lemma FitsLonger(spent: int, rate: real, capacity: real, short: real, long: real)
    requires short <= long && rate >= 0.0 && Fits(spent, rate, capacity, short)
    ensures Fits(spent, rate, capacity, long)
  {
    assert short * rate <= long * rate;
  }

  lemma NoneFits(rate: real, capacity: real, elapsed: real)
    requires elapsed >= 0.0 && rate >= 0.0 && capacity >= 0.0
    ensures Fits(0, rate, capacity, elapsed)
  {
    assert elapsed * rate >= 0.0;
  }

  lemma AdmittedFits(calls: seq<Call>, rate: real, capacity: real, k: nat, n: nat)
    requires k <= n < |calls| && calls[k].client == calls[n].client && Allowed(calls, rate, capacity, n)
    ensures Fits(Spent(calls, rate, capacity, calls[k].client, k, n) + 1, rate, capacity, calls[n].now - calls[k].now)
  {
    ExactEnvelope(calls, rate, capacity, n);
  }

  lemma {:induction false} SpanBoundAt(calls: seq<Call>, rate: real, capacity: real, i: nat, n: nat, t: real)
    requires i <= n <= |calls| && i < |calls|
    requires rate >= 0.0 && capacity >= 0.0
    requires calls[i].now <= t && forall m :: i <= m < n && calls[m].client == calls[i].client ==> calls[m].now <= t
    ensures Fits(Spent(calls, rate, capacity, calls[i].client, i, n), rate, capacity, t - calls[i].now)
    decreases n
  {
    hide Allowed, Fits;
    if n > i {
      if calls[n - 1].client == calls[i].client && Allowed(calls, rate, capacity, n - 1) {
        AdmittedFits(calls, rate, capacity, i, n - 1);
        var short, long := calls[n - 1].now - calls[i].now, t - calls[i].now;
        FitsLonger(Spent(calls, rate, capacity, calls[i].client, i, n), rate, capacity, short, long);
      } else {
        SpanBoundAt(calls, rate, capacity, i, n - 1, t);
      }
    } else {
      NoneFits(rate, capacity, t - calls[i].now);
    }
  }

  // ---------- Greedy optimality ----------

  /** The flags of one client's calls, with everybody else's cleared. */
  function Of(calls: seq<Call>, client: string, flags: seq<bool>): (mine: seq<bool>)
    requires |flags| == |calls|
    ensures |mine| == |calls|
    ensures forall j :: 0 <= j < |calls| ==> mine[j] == (calls[j].client == client && flags[j])
  {
    seq(|calls|, j requires 0 <= j < |calls| => calls[j].client == client && flags[j])
  }

  ghost predicate Answers(calls: seq<Call>, rate: real, capacity: real, flags: seq<bool>)
    requires |flags| == |calls|
  {
    forall j :: 0 <= j < |calls| ==> flags[j] == Allowed(calls, rate, capacity, j)
  }

  /** A choice of calls that, counting back from each pick to each earlier call of its client, fits the envelope. */
  ghost predicate FitsEnvelope(calls: seq<Call>, rate: real, capacity: real, picks: seq<bool>)
    requires |picks| == |calls|
  {
    forall k, n :: 0 <= k <= n < |calls| && picks[n] && calls[k].client == calls[n].client ==>
      Count(Of(calls, calls[n].client, picks), k, n) as real + 1.0 <= capacity + (calls[n].now - calls[k].now) * rate
  }

  lemma {:induction false} SpentIsCount(calls: seq<Call>, rate: real, capacity: real, flags: seq<bool>,
                                        client: string, k: nat, n: nat)
    requires k <= n <= |calls| == |flags| && Answers(calls, rate, capacity, flags)
    ensures Spent(calls, rate, capacity, client, k, n) == Count(Of(calls, client, flags), k, n)
    decreases n
  {
    hide Allowed;
    if k < n { SpentIsCount(calls, rate, capacity, flags, client, k, n - 1); }
  }

  /** A refused call that another choice picks has some k from which the bucket has already admitted more. */
  lemma RefusedIsAhead(calls: seq<Call>, rate: real, capacity: real, flags: seq<bool>, picks: seq<bool>, n: nat)
    returns (k: nat)
    requires n < |calls| == |flags| == |picks|
    requires Answers(calls, rate, capacity, flags) && FitsEnvelope(calls, rate, capacity, picks)
    requires picks[n] && !flags[n]
    ensures k <= n
    ensures Count(Of(calls, calls[n].client, picks), k, n) + 1 <= Count(Of(calls, calls[n].client, flags), k, n)
  {
    ExactEnvelope(calls, rate, capacity, n);
    assert !Allowed(calls, rate, capacity, n);
    hide Allowed, Answers;
    k :| 0 <= k <= n && calls[k].client == calls[n].client
      && !(Spent(calls, rate, capacity, calls[n].client, k, n) as real + 1.0
        <= capacity + (calls[n].now - calls[k].now) * rate);
    SpentIsCount(calls, rate, capacity, flags, calls[n].client, k, n);
  }

  /** No choice that fits the envelope has, after any prefix, admitted more of any client's calls than the bucket. */
  lemma BucketIsOptimal(calls: seq<Call>, rate: real, capacity: real, flags: seq<bool>, picks: seq<bool>,
                        client: string, n: nat)
    requires n <= |calls| == |flags| == |picks|
    requires Answers(calls, rate, capacity, flags) && FitsEnvelope(calls, rate, capacity, picks)
    ensures Count(Of(calls, client, picks), 0, n) <= Count(Of(calls, client, flags), 0, n)
  {
    var mine, theirs := Of(calls, client, flags), Of(calls, client, picks);
    forall j | 0 <= j < |mine| && theirs[j] && !mine[j]
      ensures exists k :: 0 <= k <= j && Count(theirs, k, j) + 1 <= Count(mine, k, j)
    {
      var k := RefusedIsAhead(calls, rate, capacity, flags, picks, j);
    }
    Domination(mine, theirs, n);
  }

  /** The bucket's own answers fit the envelope. */
  lemma AnswersFitEnvelope(calls: seq<Call>, rate: real, capacity: real, flags: seq<bool>)
    requires |flags| == |calls| && Answers(calls, rate, capacity, flags)
    ensures FitsEnvelope(calls, rate, capacity, flags)
  {
    forall k, n | 0 <= k <= n < |calls| && flags[n] && calls[k].client == calls[n].client
      ensures Count(Of(calls, calls[n].client, flags), k, n) as real + 1.0
        <= capacity + (calls[n].now - calls[k].now) * rate
    {
      assert Allowed(calls, rate, capacity, n);
      ExactEnvelope(calls, rate, capacity, n);
      SpentIsCount(calls, rate, capacity, flags, calls[n].client, k, n);
    }
  }
}
