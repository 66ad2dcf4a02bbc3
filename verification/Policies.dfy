/** Rate-limit policies: what the writers accept, how scaling changes them, and how one is chosen for a request. */
module Policies {
  import opened Wrappers

  datatype Policy = Policy(id: string, path: string, verb: string, limit: int, windowSec: int, tier: string) {
    /** The fields a policy must carry to be stored. */
    predicate Complete() {
      id != "" && path != "" && limit > 0 && windowSec > 0
    }

    /** An empty method or tier stands for any. */
    function Defaulted(): Policy {
      this.(verb := if verb == "" then "*" else verb, tier := if tier == "" then "*" else tier)
    }

    function Scaled(factor: real): Policy {
      this.(limit := Truncate(limit as real * factor))
    }

    predicate Matches(path: string, verb: string, tier: string) {
      && (this.path == "*" || this.path == path)
      && (this.verb == "*" || this.verb == verb)
      && (this.tier == "*" || this.tier == tier)
    }
  }

  /** Conversion to an integer, towards zero. */
  function Truncate(x: real): int {
    if x >= 0.0 then x.Floor else -((-x).Floor)
  }

  /** What is cut off is less than one, and the sign stays. */
  lemma TruncatesTowardsZero(x: real)
    ensures x >= 0.0 ==> 0.0 <= Truncate(x) as real <= x < Truncate(x) as real + 1.0
    ensures x <= 0.0 ==> Truncate(x) as real - 1.0 < x <= Truncate(x) as real <= 0.0
  {
  }

  /**
   * Scaling by more than one changes the limit alone: never below what it was, never above the exact
   * product and by less than one below it.
   */
  lemma ScalingKeepsComplete(p: Policy, factor: real)
    requires p.Complete() && factor > 1.0
    ensures p.Scaled(factor).Complete() && p.Scaled(factor) == p.(limit := p.Scaled(factor).limit)
    ensures p.limit <= p.Scaled(factor).limit
    ensures p.limit as real * factor - 1.0 < p.Scaled(factor).limit as real <= p.limit as real * factor
  {
    assert p.limit as real * factor >= p.limit as real * 1.0;
  }

  /** A policy applies where its path, method and tier are each a star or the request's own. */
  lemma MatchesExactly(p: Policy, path: string, verb: string, tier: string)
    ensures p.Matches(path, verb, tier) <==> p.path in {"*", path} && p.verb in {"*", verb} && p.tier in {"*", tier}
  {
  }

  /** A stored policy applies as the one sent, an empty method or tier standing for any; nothing else of it changes. */
  lemma DefaultedMatches(p: Policy, path: string, verb: string, tier: string)
    ensures p.Defaulted().Matches(path, verb, tier)
       <==> p.path in {"*", path} && p.verb in {"", "*", verb} && p.tier in {"", "*", tier}
    ensures p.Defaulted() == p.(verb := p.Defaulted().verb, tier := p.Defaulted().tier)
    ensures p.verb != "" ==> p.Defaulted().verb == p.verb
    ensures p.tier != "" ==> p.Defaulted().tier == p.tier
  {
  }

  /**
   * Without a stored policy a minute holds 1000 requests of a premium client, 100 of a basic one, and
   * 20 of any other.
   */
  lemma DefaultLimits(path: string, verb: string, tier: string)
    ensures DefaultPolicy("premium").limit == 1000 && DefaultPolicy("basic").limit == 100
    ensures tier !in {"premium", "basic"} ==> DefaultPolicy(tier).limit == 20
    ensures DefaultPolicy(tier).windowSec == 60
    ensures DefaultPolicy(tier).Matches(path, verb, tier) <==> tier in {"premium", "basic", "anonymous"}
  {
  }

  /** The policy used when none is stored for the request. */
  function DefaultPolicy(tier: string): (p: Policy)
    ensures p.Complete() && p.windowSec == 60
  {
    match tier
    case "premium" => Policy("default-premium", "*", "*", 1000, 60, "premium")
    case "basic" => Policy("default-basic", "*", "*", 100, 60, "basic")
    case _ => Policy("default-anonymous", "*", "*", 20, 60, "anonymous")
  }

  /** Search the cache, in whatever order it is visited, for a policy that matches the request. */
  method GetMatchingPolicy(policies: map<string, Policy>, path: string, verb: string, tier: string)
    returns (matched: Option<Policy>)
    ensures matched.Some? <==> exists id :: id in policies && policies[id].Matches(path, verb, tier)
    ensures matched.Some? ==>
      exists id :: id in policies && policies[id] == matched.value && matched.value.Matches(path, verb, tier)
  {
    var unseen := policies.Keys;
    while unseen != {}
      invariant unseen <= policies.Keys
      invariant forall id :: id in policies && id !in unseen ==> !policies[id].Matches(path, verb, tier)
    {
      var id :| id in unseen;
      if policies[id].Matches(path, verb, tier) {
        return Some(policies[id]);
      }
      unseen := unseen - {id};
    }
    return None;
  }

  /** What a request may be limited by: any matching policy of the cache or, without one, its tier's default. */
  ghost predicate Selected(policies: map<string, Policy>, path: string, verb: string, tier: string, p: Policy) {
    if exists id :: id in policies && policies[id].Matches(path, verb, tier)
    then exists id :: id in policies && policies[id] == p && p.Matches(path, verb, tier)
    else p == DefaultPolicy(tier)
  }

  /** Whatever a request is limited by is cached and meant for it, or is its tier's default when nothing cached is. */
  lemma SelectedExactly(policies: map<string, Policy>, path: string, verb: string, tier: string, p: Policy)
    requires Selected(policies, path, verb, tier, p)
    ensures p in policies.Values || p == DefaultPolicy(tier)
    ensures (exists q :: q in policies.Values
                         && q.path in {"*", path} && q.verb in {"*", verb} && q.tier in {"*", tier})
       ==> p in policies.Values && p.path in {"*", path} && p.verb in {"*", verb} && p.tier in {"*", tier}
    ensures (forall q :: q in policies.Values ==>
               q.path !in {"*", path} || q.verb !in {"*", verb} || q.tier !in {"*", tier})
       ==> p == DefaultPolicy(tier)
  {
    if q :| q in policies.Values && q.path in {"*", path} && q.verb in {"*", verb} && q.tier in {"*", tier} {
      var id :| id in policies && policies[id] == q;
      assert policies[id].Matches(path, verb, tier);
    }
  }

  /** The policy a request is limited by; among complete policies, always a complete one. */
  method SelectPolicy(policies: map<string, Policy>, path: string, verb: string, tier: string) returns (p: Policy)
    ensures Selected(policies, path, verb, tier, p)
    ensures (forall id :: id in policies ==> policies[id].Complete()) ==> p.Complete()
  {
    var matched := GetMatchingPolicy(policies, path, verb, tier);
    if matched.Some? {
      p := matched.value;
    } else {
      p := DefaultPolicy(tier);
    }
  }
}
