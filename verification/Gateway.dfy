/**
 * Requests at any number of gateways that share one Redis: each is limited by the policy found for
 * it, through a script that may have to be loaded again, over links that may fail; a request is
 * served unless the limiter answers that it must not be.
 */
module Gateway {
  import opened Policies
  import opened SlidingWindow
  import opened Windows
  import opened Wrappers

  /** What befalls one command: Redis may just have lost its scripts, may be out of reach, or its reply may be lost. */
  datatype Link = Link(flushed: bool, reachable: bool, heard: bool)

  /** The three commands one limiter call can need. */
  datatype Links = Links(first: Link, reload: Link, second: Link)

  /** What a limiter and Redis know of the script: the digest the limiter sends, and whether Redis holds it. */
  datatype Scripts = Scripts(sha: string, loaded: bool)

  datatype Reply = NoReply | NoScript | Reply(allowed: bool)

  /** What came of a limiter call: whether the script ran, whether its answer arrived, and the scripts afterwards. */
  datatype Delivery = Delivery(executed: bool, answered: bool, scripts: Scripts)

  /** A client's request with the script arguments of its policy, as far as it got. */
  datatype Arrival = Arrival(client: string, call: Call, executed: bool, answered: bool)

  const DIGEST := "sliding-window"

  function Key(client: string): string { "zg:rl:" + client }

  function LogOf(logs: map<string, Log>, client: string): Log {
    if Key(client) in logs then logs[Key(client)] else EMPTY
  }

  /** Whether Redis would run the script for a command sent over this link. */
  predicate Runs(scripts: Scripts, link: Link) {
    link.reachable && scripts.sha == DIGEST && scripts.loaded && !link.flushed
  }

  function Flushed(scripts: Scripts, link: Link): Scripts {
    scripts.(loaded := scripts.loaded && !link.flushed)
  }

  /** A digest that failed to come back leaves none, which Redis treats as a script it does not hold. */
  function Reloaded(scripts: Scripts, link: Link): Scripts {
    Scripts(if link.reachable && link.heard then DIGEST else "", link.reachable || Flushed(scripts, link).loaded)
  }

  function Attempt(scripts: Scripts, links: Links): Delivery {
    var first := Flushed(scripts, links.first);
    if Runs(scripts, links.first) then Delivery(true, links.first.heard, first)
    else if !links.first.reachable || !links.first.heard then Delivery(false, false, first)
    else
      var again := Reloaded(first, links.reload);
      if !links.reload.reachable || !links.reload.heard then Delivery(false, false, again)
      else
        var ran := Runs(again, links.second);
        Delivery(ran, ran && links.second.heard, Flushed(again, links.second))
  }

  function After(logs: map<string, Log>, a: Arrival): map<string, Log> {
    if a.executed then logs[Key(a.client) := Next(LogOf(logs, a.client), a.call)] else logs
  }

  function Answer(logs: map<string, Log>, a: Arrival): Option<bool> {
    if a.answered then Some(Grants(LogOf(logs, a.client), a.call)) else None
  }

  /** A request is served unless the limiter says no. */
  predicate Served(logs: map<string, Log>, a: Arrival) {
    Answer(logs, a) != Some(false)
  }

  /** Redis, with the scripts it holds and one log a key. */
  class Redis {
    var logs: map<string, Log>
    var loaded: bool

    constructor ()
      ensures logs == map[] && !loaded
    {
      logs, loaded := map[], false;
    }

    method EvalSha(sha: string, key: string, c: Call, link: Link) returns (reply: Reply)
      modifies this
      ensures loaded == Flushed(Scripts(sha, old(loaded)), link).loaded
      ensures var log := if key in old(logs) then old(logs)[key] else EMPTY;
        if Runs(Scripts(sha, old(loaded)), link)
        then logs == old(logs)[key := Next(log, c)] && reply == if link.heard then Reply(Grants(log, c)) else NoReply
        else logs == old(logs) && reply == if link.reachable && link.heard then NoScript else NoReply
    {
      if link.flushed { loaded := false; }
      if !link.reachable { return NoReply; }
      if sha == DIGEST && loaded {
        var log := new SortedSet();
        if key in logs { log.zset, log.expireAt := logs[key].zset, logs[key].expireAt; }
        var allowed := log.RunScript(c);
        logs := logs[key := log.Contents()];
        reply := Reply(allowed);
      } else {
        reply := NoScript;
      }
      if !link.heard { reply := NoReply; }
    }

    method ScriptLoad(link: Link) returns (sha: Option<string>)
      modifies this`loaded
      ensures loaded == Reloaded(Scripts("", old(loaded)), link).loaded
      ensures sha == if link.reachable && link.heard then Some(DIGEST) else None
    {
      if link.flushed { loaded := false; }
      if link.reachable { loaded := true; }
      sha := if link.reachable && link.heard then Some(DIGEST) else None;
    }
  }

  class Limiter {
    const rdb: Redis
    var scriptSHA: string

    constructor (rdb: Redis, sha: string)
      ensures this.rdb == rdb && scriptSHA == sha
    {
      this.rdb, scriptSHA := rdb, sha;
    }

    function Known(): Scripts
      reads this, rdb
    {
      Scripts(scriptSHA, rdb.loaded)
    }

    /** Run the script, loading it again once if Redis does not hold it; no answer stands for an error. */
    method Allow(client: string, limit: int, windowSec: int, now: int, server: int, suffix: int, links: Links)
      returns (allowed: Option<bool>)
      modifies this, rdb
      ensures var d := Attempt(old(Known()), links);
        var a := Arrival(client, Call(now, server, limit, windowSec * 1000, suffix), d.executed, d.answered);
        && rdb.logs == After(old(rdb.logs), a) && allowed == Answer(old(rdb.logs), a) && Known() == d.scripts
    {
      hide Next, Grants;
      var c := Call(now, server, limit, windowSec * 1000, suffix);
      var reply := rdb.EvalSha(scriptSHA, Key(client), c, links.first);
      if reply.NoScript? {
        var sha := rdb.ScriptLoad(links.reload);
        scriptSHA := if sha.Some? then sha.value else "";
        if sha.None? { return None; }
        reply := rdb.EvalSha(scriptSHA, Key(client), c, links.second);
      }
      allowed := if reply.Reply? then Some(reply.allowed) else None;
    }
  }

  function Named(identity: string): string {
    if identity == "" then "anonymous" else identity
  }

  class Middleware {
    const limiter: Limiter
    var policies: map<string, Policy>
    var rateLimited: nat

    constructor (limiter: Limiter, policies: map<string, Policy>)
      ensures this.limiter == limiter && this.policies == policies && rateLimited == 0
    {
      this.limiter, this.policies, rateLimited := limiter, policies, 0;
    }

    /** Limit a request by the policy found for it, and serve it unless that refuses it. */
    method Handle(path: string, verb: string, client: string, tier: string, now: int, server: int, suffix: int,
                  links: Links)
      returns (served: bool, policy: Policy)
      modifies this`rateLimited, limiter, limiter.rdb
      ensures Selected(policies, path, verb, Named(tier), policy)
      ensures (forall id :: id in policies ==> policies[id].Complete()) ==> policy.limit > 0 && policy.windowSec > 0
      ensures var d := Attempt(old(limiter.Known()), links);
        var c := Call(now, server, policy.limit, policy.windowSec * 1000, suffix);
        var a := Arrival(Named(client), c, d.executed, d.answered);
        && limiter.rdb.logs == After(old(limiter.rdb.logs), a)
        && served == Served(old(limiter.rdb.logs), a) && limiter.Known() == d.scripts
      ensures var d := Attempt(old(limiter.Known()), links);
        var log := LogOf(old(limiter.rdb.logs), if client == "" then "anonymous" else client);
        var c := Call(now, server, policy.limit, policy.windowSec * 1000, suffix);
        served <==> !d.answered || |Seen(log, c).zset| < policy.limit
      ensures rateLimited == old(rateLimited) + if served then 0 else 1
      ensures tier == "" ==> Selected(policies, path, verb, "anonymous", policy)
      ensures tier != "" ==> Selected(policies, path, verb, tier, policy)
    {
      hide Selected, Attempt, After, Seen;
      policy := SelectPolicy(policies, path, verb, Named(tier));
      var allowed := limiter.Allow(Named(client), policy.limit, policy.windowSec, now, server, suffix, links);
      served := allowed.None? || allowed.value;
      if !served {
        rateLimited := rateLimited + 1;
      }
    }
  }

  // ---------- One limiter call ----------

  /** An answer comes from a script that ran, whatever became of the links. */
  lemma AnswersComeFromRuns(scripts: Scripts, links: Links)
    ensures Attempt(scripts, links).answered ==> Attempt(scripts, links).executed
  {
  }

  predicate Works(link: Link) { link.reachable && link.heard }

  /** Redis holds the script under the digest a limiter sends, unless it loses its scripts first. */
  predicate Holds(scripts: Scripts, link: Link) {
    scripts.sha == DIGEST && scripts.loaded && !link.flushed
  }

  /**
   * The script runs exactly when the first command reaches Redis while it holds the script or, where
   * that command works and finds the script missing, the reload works and the second command reaches
   * Redis before it loses the script again.
   */
  lemma ExecutedExactly(scripts: Scripts, links: Links)
    ensures Attempt(scripts, links).executed
      <==> (links.first.reachable
            && (Holds(scripts, links.first)
                || (links.first.heard && Works(links.reload) && links.second.reachable && !links.second.flushed)))
  {
  }

  /**
   * A call is answered exactly when its first command works and, where the script is missing then,
   * the reload and the second command work too and the script is not lost between them: no digest
   * and no loss of scripts from earlier calls can keep a limiter from recovering.
   */
  lemma AnsweredExactly(scripts: Scripts, links: Links)
    ensures Attempt(scripts, links).answered
      <==> (&& Works(links.first)
            && (Holds(scripts, links.first) || (Works(links.reload) && Works(links.second) && !links.second.flushed)))
  {
  }

  /** A limiter's digest changes only when it reloads the script: to the one that comes back, or to none. */
  lemma DigestAfter(scripts: Scripts, links: Links)
    ensures Attempt(scripts, links).scripts.sha
         == if !Works(links.first) || Holds(scripts, links.first) then scripts.sha
            else if Works(links.reload) then DIGEST else ""
  {
  }

  /**
   * A request is served exactly if the limiter does not answer, or the log it counts holds fewer
   * members than the limit.
   */
  lemma ServedExactly(logs: map<string, Log>, a: Arrival)
    ensures Served(logs, a) <==> !a.answered || |Seen(LogOf(logs, a.client), a.call).zset| < a.call.limit
  {
    hide Seen;
  }

  // ---------- Runs ----------

  function LogsAfter(arrivals: seq<Arrival>, n: nat): map<string, Log>
    requires n <= |arrivals|
  {
    if n == 0 then map[] else After(LogsAfter(arrivals, n - 1), arrivals[n - 1])
  }

  /** A client's own calls among the first n arrivals, as far as the script ran for them. */
  function CallsOf(arrivals: seq<Arrival>, n: nat, client: string): seq<Call>
    requires n <= |arrivals|
  {
    if n == 0 then []
    else CallsOf(arrivals, n - 1, client) + if IsOf(arrivals[n - 1], client) then [arrivals[n - 1].call] else []
  }

  predicate IsOf(a: Arrival, client: string) { a.client == client && a.executed }

  /** What the script decided for each of them. */
  function FlagsOf(arrivals: seq<Arrival>, n: nat, client: string): (flags: seq<bool>)
    requires n <= |arrivals|
    ensures |flags| == |CallsOf(arrivals, n, client)|
  {
    if n == 0 then []
    else
      var a := arrivals[n - 1];
      var flag := Grants(LogOf(LogsAfter(arrivals, n - 1), client), a.call);
      FlagsOf(arrivals, n - 1, client) + if IsOf(a, client) then [flag] else []
  }

  lemma OtherKeysStay(logs: map<string, Log>, a: Arrival, client: string)
    ensures LogOf(After(logs, a), client)
        == if IsOf(a, client) then Next(LogOf(logs, client), a.call) else LogOf(logs, client)
  {
    assert Key(client)[6..] == client && Key(a.client)[6..] == a.client;
  }

  lemma {:induction false} StateAtPrefix(calls: seq<Call>, c: Call, n: nat)
    requires n <= |calls|
    ensures StateAt(calls + [c], n) == StateAt(calls, n)
  {
    hide Next;
    if n > 0 { StateAtPrefix(calls, c, n - 1); }
  }

  /** A client's log is what its own calls make of an absent key, whoever else shares the server. */
  lemma {:induction false} LogIsItsOwn(arrivals: seq<Arrival>, n: nat, client: string)
    requires n <= |arrivals|
    ensures var calls := CallsOf(arrivals, n, client);
            LogOf(LogsAfter(arrivals, n), client) == StateAt(calls, |calls|)
  {
    hide Next, LogOf, After;
    if n > 0 {
      var a, calls := arrivals[n - 1], CallsOf(arrivals, n - 1, client);
      LogIsItsOwn(arrivals, n - 1, client);
      OtherKeysStay(LogsAfter(arrivals, n - 1), a, client);
      if IsOf(a, client) {
        StateAtPrefix(calls, a.call, |calls|);
      } else {
        assert CallsOf(arrivals, n, client) == calls;
      }
    } else {
      assert LogOf(map[], client) == EMPTY by { NoLogs(client); }
    }
  }

  lemma NoLogs(client: string)
    ensures LogOf(map[], client) == EMPTY
  {
  }

  lemma AllowedPrefix(calls: seq<Call>, c: Call, n: nat)
    requires n <= |calls|
    ensures Allowed(calls + [c], n) == if n < |calls| then Allowed(calls, n) else Grants(StateAt(calls, n), c)
  {
    hide Seen;
    StateAtPrefix(calls, c, n);
  }

  lemma AnswersMore(calls: seq<Call>, flags: seq<bool>, c: Call)
    requires |flags| == |calls| && Answers(calls, flags)
    ensures Answers(calls + [c], flags + [Grants(StateAt(calls, |calls|), c)])
  {
    hide Allowed, Grants;
    forall n | 0 <= n <= |calls| ensures (flags + [Grants(StateAt(calls, |calls|), c)])[n] == Allowed(calls + [c], n) {
      AllowedPrefix(calls, c, n);
    }
  }

  /** The decisions a client's requests meet are those of a run of its own calls alone. */
  lemma {:induction false} DecidedByOwnCalls(arrivals: seq<Arrival>, n: nat, client: string)
    requires n <= |arrivals|
    ensures Answers(CallsOf(arrivals, n, client), FlagsOf(arrivals, n, client))
  {
    hide Answers, Grants, LogOf, After, Next, Seen;
    if n > 0 {
      var calls, flags := CallsOf(arrivals, n - 1, client), FlagsOf(arrivals, n - 1, client);
      DecidedByOwnCalls(arrivals, n - 1, client);
      LogIsItsOwn(arrivals, n - 1, client);
      if IsOf(arrivals[n - 1], client) {
        AnswersMore(calls, flags, arrivals[n - 1].call);
      } else {
        assert CallsOf(arrivals, n, client) == calls && FlagsOf(arrivals, n, client) == flags;
      }
    } else {
      assert Answers([], []) by { NoAnswers(); }
    }
  }

  lemma NoAnswers()
    ensures Answers([], [])
  {
  }

  // ---------- How many requests are served ----------

  predicate Counts(a: Arrival, client: string, from: int, to: int) {
    a.client == client && from < a.call.now <= to
  }

  /** The client's requests in an interval that were served. */
  function ServedIn(arrivals: seq<Arrival>, n: nat, client: string, from: int, to: int): set<nat>
    requires n <= |arrivals|
  {
    set i | 0 <= i < n && Counts(arrivals[i], client, from, to) && Served(LogsAfter(arrivals, i), arrivals[i])
  }

  /** The client's requests in an interval that the limiter did not answer. */
  function UnansweredIn(arrivals: seq<Arrival>, n: nat, client: string, from: int, to: int): set<nat>
    requires n <= |arrivals|
  {
    set i | 0 <= i < n && Counts(arrivals[i], client, from, to) && !arrivals[i].answered
  }

  /**
   * The client's requests in an interval that the limiter answered and whose log held fewer members
   * than their limit.
   */
  function AdmittedIn(arrivals: seq<Arrival>, n: nat, client: string, from: int, to: int): set<nat>
    requires n <= |arrivals|
  {
    set i | 0 <= i < n && Counts(arrivals[i], client, from, to) && arrivals[i].answered
            && |Seen(LogOf(LogsAfter(arrivals, i), client), arrivals[i].call).zset| < arrivals[i].call.limit
  }

  /** Exactly the answered admissions and the unanswered requests are served: nobody else, and nobody less. */
  lemma ServedAreExactly(arrivals: seq<Arrival>, n: nat, client: string, from: int, to: int)
    requires n <= |arrivals|
    ensures ServedIn(arrivals, n, client, from, to)
         == AdmittedIn(arrivals, n, client, from, to) + UnansweredIn(arrivals, n, client, from, to)
    ensures |ServedIn(arrivals, n, client, from, to)|
         == |AdmittedIn(arrivals, n, client, from, to)| + |UnansweredIn(arrivals, n, client, from, to)|
  {
    hide Seen, Served, LogOf;
    forall i | 0 <= i < n && Counts(arrivals[i], client, from, to)
      ensures Served(LogsAfter(arrivals, i), arrivals[i])
        <==> (!arrivals[i].answered
              || |Seen(LogOf(LogsAfter(arrivals, i), client), arrivals[i].call).zset| < arrivals[i].call.limit)
    {
      ServedExactly(LogsAfter(arrivals, i), arrivals[i]);
    }
    assert AdmittedIn(arrivals, n, client, from, to) !! UnansweredIn(arrivals, n, client, from, to);
  }

  lemma ServedStep(arrivals: seq<Arrival>, n: nat, client: string, from: int, to: int)
    requires n < |arrivals|
    ensures var a := arrivals[n]; var logs := LogsAfter(arrivals, n);
      |ServedIn(arrivals, n + 1, client, from, to)|
      == |ServedIn(arrivals, n, client, from, to)| + if Counts(a, client, from, to) && Served(logs, a) then 1 else 0
  {
    hide Served, Counts;
    var before := ServedIn(arrivals, n, client, from, to);
    var serves := Counts(arrivals[n], client, from, to) && Served(LogsAfter(arrivals, n), arrivals[n]);
    var more := if serves then {n} else {};
    assert ServedIn(arrivals, n + 1, client, from, to) == before + more;
  }

  lemma UnansweredStep(arrivals: seq<Arrival>, n: nat, client: string, from: int, to: int)
    requires n < |arrivals|
    ensures |UnansweredIn(arrivals, n + 1, client, from, to)|
      == |UnansweredIn(arrivals, n, client, from, to)|
       + if Counts(arrivals[n], client, from, to) && !arrivals[n].answered then 1 else 0
  {
    hide Counts;
    var before := UnansweredIn(arrivals, n, client, from, to);
    var more := if Counts(arrivals[n], client, from, to) && !arrivals[n].answered then {n} else {};
    assert UnansweredIn(arrivals, n + 1, client, from, to) == before + more;
  }

  /** How many calls the script admitted in an interval. */
  function Admitted(calls: seq<Call>, flags: seq<bool>, from: int, to: int): nat
    requires |flags| == |calls|
  {
    |PickedIn(Times(calls), flags, |calls|, from, to)|
  }

  lemma AdmittedStep(calls: seq<Call>, flags: seq<bool>, c: Call, flag: bool, from: int, to: int)
    requires |flags| == |calls|
    ensures Admitted(calls + [c], flags + [flag], from, to)
         == Admitted(calls, flags, from, to) + if flag && from < c.now <= to then 1 else 0
  {
    var n := |calls|;
    var more: set<int> := if flag && from < c.now <= to then {n} else {};
    assert PickedIn(Times(calls + [c]), flags + [flag], n + 1, from, to)
        == PickedIn(Times(calls), flags, n, from, to) + more;
  }

  /** An answer is only had from a script that ran. */
  ghost predicate Honest(arrivals: seq<Arrival>) {
    forall i :: 0 <= i < |arrivals| && arrivals[i].answered ==> arrivals[i].executed
  }

  lemma {:induction false} ServedAreAdmittedOrUnanswered(arrivals: seq<Arrival>, n: nat, client: string, from: int,
                                                         to: int)
    requires n <= |arrivals| && Honest(arrivals)
    ensures |ServedIn(arrivals, n, client, from, to)|
         <= Admitted(CallsOf(arrivals, n, client), FlagsOf(arrivals, n, client), from, to)
          + |UnansweredIn(arrivals, n, client, from, to)|
  {
    hide ServedIn, UnansweredIn, Admitted, Grants, LogOf, After;
    if n > 0 {
      var a := arrivals[n - 1];
      var calls, flags := CallsOf(arrivals, n - 1, client), FlagsOf(arrivals, n - 1, client);
      ServedAreAdmittedOrUnanswered(arrivals, n - 1, client, from, to);
      ServedStep(arrivals, n - 1, client, from, to);
      UnansweredStep(arrivals, n - 1, client, from, to);
      if IsOf(a, client) {
        AdmittedStep(calls, flags, a.call, Grants(LogOf(LogsAfter(arrivals, n - 1), client), a.call), from, to);
      } else {
        assert CallsOf(arrivals, n, client) == calls && FlagsOf(arrivals, n, client) == flags;
      }
    } else {
      NobodyServed(arrivals, client, from, to);
    }
  }

  lemma NobodyServed(arrivals: seq<Arrival>, client: string, from: int, to: int)
    ensures |ServedIn(arrivals, 0, client, from, to)| == 0
  {
  }

  /**
   * What all the gateways together let through: over any half-open interval of timestamps as long as
   * the client's smallest window less the drift, at most its largest limit, and one more for each
   * request the limiter failed to answer.
   */
  lemma GatewaysKeepTheLimit(arrivals: seq<Arrival>, client: string, d: int, window: int, limit: nat, from: int)
    requires Honest(arrivals)
    requires var calls := CallsOf(arrivals, |arrivals|, client);
             Drift(calls, d) && WindowAtLeast(calls, window) && LimitAtMost(calls, limit) && Fresh(calls)
    ensures |ServedIn(arrivals, |arrivals|, client, from, from + window - d)|
         <= limit + |UnansweredIn(arrivals, |arrivals|, client, from, from + window - d)|
    ensures |AdmittedIn(arrivals, |arrivals|, client, from, from + window - d)| <= limit
  {
    hide AdmittedIn, ServedIn, UnansweredIn, Answers, Drift, WindowAtLeast, LimitAtMost, Fresh;
    var n := |arrivals|;
    DecidedByOwnCalls(arrivals, n, client);
    ServedAreAdmittedOrUnanswered(arrivals, n, client, from, from + window - d);
    ServedAreExactly(arrivals, n, client, from, from + window - d);
    var calls, flags := CallsOf(arrivals, n, client), FlagsOf(arrivals, n, client);
    SkewSafetyForCalls(calls, flags, |calls|, d, window, limit, from);
  }

  // ---------- Runs of requests ----------

  /** A request at one of the gateways, with its script arguments and what befalls its commands. */
  datatype Sent = Sent(gateway: nat, client: string, call: Call, links: Links)

  /** The digest each gateway's limiter holds, and whether the shared Redis holds the script. */
  datatype Fleet = Fleet(shas: map<nat, string>, loaded: bool)

  function KnownTo(fleet: Fleet, gateway: nat): Scripts {
    Scripts(if gateway in fleet.shas then fleet.shas[gateway] else "", fleet.loaded)
  }

  /** The fleet after the first n requests. */
  function FleetAfter(start: Fleet, sent: seq<Sent>, n: nat): Fleet
    requires n <= |sent|
  {
    if n == 0 then start
    else
      var fleet, s := FleetAfter(start, sent, n - 1), sent[n - 1];
      var scripts := Attempt(KnownTo(fleet, s.gateway), s.links).scripts;
      Fleet(fleet.shas[s.gateway := scripts.sha], scripts.loaded)
  }

  function ArrivalAt(start: Fleet, sent: seq<Sent>, n: nat): Arrival
    requires n < |sent|
  {
    var d := Attempt(KnownTo(FleetAfter(start, sent, n), sent[n].gateway), sent[n].links);
    Arrival(sent[n].client, sent[n].call, d.executed, d.answered)
  }

  /** What comes of each request of a run. */
  function ArrivalsOf(start: Fleet, sent: seq<Sent>): (arrivals: seq<Arrival>)
    ensures |arrivals| == |sent|
    ensures forall n :: 0 <= n < |sent| ==> arrivals[n] == ArrivalAt(start, sent, n)
  {
    seq(|sent|, n requires 0 <= n < |sent| => ArrivalAt(start, sent, n))
  }

  lemma ArrivalsAreHonest(start: Fleet, sent: seq<Sent>)
    ensures Honest(ArrivalsOf(start, sent))
  {
    hide Attempt;
    forall n | 0 <= n < |sent| && ArrivalAt(start, sent, n).answered ensures ArrivalAt(start, sent, n).executed {
      AnswersComeFromRuns(KnownTo(FleetAfter(start, sent, n), sent[n].gateway), sent[n].links);
    }
  }

  /**
   * In any run of requests at any gateways that share one Redis, whatever digests they start with,
   * whenever the script is lost and whichever commands fail, the bound on what all gateways together
   * let through for a client holds.
   */
  lemma FleetKeepsTheLimit(start: Fleet, sent: seq<Sent>, client: string, d: int, window: int, limit: nat, from: int)
    requires var calls := CallsOf(ArrivalsOf(start, sent), |sent|, client);
             Drift(calls, d) && WindowAtLeast(calls, window) && LimitAtMost(calls, limit) && Fresh(calls)
    ensures var arrivals := ArrivalsOf(start, sent);
            |ServedIn(arrivals, |sent|, client, from, from + window - d)|
            <= limit + |UnansweredIn(arrivals, |sent|, client, from, from + window - d)|
  {
    ArrivalsAreHonest(start, sent);
    hide Honest, Drift, WindowAtLeast, LimitAtMost, Fresh, ServedIn, UnansweredIn;
    GatewaysKeepTheLimit(ArrivalsOf(start, sent), client, d, window, limit, from);
  }

  /** Every command of a request works, and the script is not lost between loading it again and the second try. */
  predicate Undisturbed(links: Links) {
    Works(links.first) && Works(links.reload) && Works(links.second) && !links.second.flushed
  }

  lemma AllAnswered(start: Fleet, sent: seq<Sent>, client: string, from: int, to: int)
    requires forall n :: 0 <= n < |sent| ==> Undisturbed(sent[n].links)
    ensures UnansweredIn(ArrivalsOf(start, sent), |sent|, client, from, to) == {}
  {
    hide Attempt, Runs;
    forall n | 0 <= n < |sent| ensures ArrivalsOf(start, sent)[n].answered {
      AnsweredExactly(KnownTo(FleetAfter(start, sent, n), sent[n].gateway), sent[n].links);
    }
  }

  /**
   * Where commands work, the limit itself is kept: no digest a gateway starts with, and no loss of the
   * script before a request, lets anything through beyond it.
   */
  lemma UndisturbedFleetKeepsTheLimit(start: Fleet, sent: seq<Sent>, client: string, d: int, window: int, limit: nat,
                                      from: int)
    requires forall n :: 0 <= n < |sent| ==> Undisturbed(sent[n].links)
    requires var calls := CallsOf(ArrivalsOf(start, sent), |sent|, client);
             Drift(calls, d) && WindowAtLeast(calls, window) && LimitAtMost(calls, limit) && Fresh(calls)
    ensures |ServedIn(ArrivalsOf(start, sent), |sent|, client, from, from + window - d)| <= limit
  {
    hide Drift, WindowAtLeast, LimitAtMost, Fresh, ServedIn, UnansweredIn, Undisturbed;
    FleetKeepsTheLimit(start, sent, client, d, window, limit, from);
    AllAnswered(start, sent, client, from, from + window - d);
  }
}
