/**
 * The metrics registry as one gateway thread sees it: the maps of counters, found or created by
 * name, and the three adds a recorded request makes.
 */
module Registry {
  import opened MetricKeys
  import opened Metrics
  import opened Sums

  function Bumped(values: map<Name, int>, name: Name, amount: int): map<Name, int> {
    values[name := Get(values, name) + amount]
  }

  function Recorded(values: map<Name, int>, verb: string, path: string, status: int, ms: nat): map<Name, int> {
    Bumped(Bumped(Bumped(values, Hits(verb, path, status), 1), TotalMs(verb, path), ms), Timed(verb, path), 1)
  }

  /** A recorded request moves its own three counters and no other. */
  lemma RecordedCounters(values: map<Name, int>, verb: string, path: string, status: int, ms: nat, n: Name)
    ensures var after := Recorded(values, verb, path, status, ms);
      match n
      case Hits(v, p, s) =>
        Get(after, n) == Get(values, n) + if v == verb && p == path && s == status then 1 else 0
      case TotalMs(v, p) => Get(after, n) == Get(values, n) + if v == verb && p == path then ms else 0
      case Timed(v, p) => Get(after, n) == Get(values, n) + if v == verb && p == path then 1 else 0
  {
  }

  class Handler {
    var bound: map<Name, nat>
    var cells: seq<int>
    var rateLimited: nat
    const startTime: nat

    ghost predicate Valid()
      reads this`bound, this`cells
    {
      OneCellEach(bound, cells)
    }

    /** What each counter holds. */
    ghost function Values(): map<Name, int>
      requires Valid()
      reads this`bound, this`cells
    {
      map n | n in bound :: cells[bound[n]]
    }

    /** Times are in milliseconds. */
    constructor (now: nat)
      ensures Valid() && Values() == map[] && rateLimited == 0 && startTime == now
    {
      bound, cells, rateLimited, startTime := map[], [], 0, now;
    }

    /** The counter of a name: the one it is bound to, or a new empty one. */
    method GetOrCreate(name: Name) returns (cell: nat)
      requires Valid()
      modifies this`bound, this`cells
      ensures Valid() && name in bound && bound[name] == cell
      ensures Values() == old(Values())[name := Get(old(Values()), name)]
      ensures old(bound).Keys <= bound.Keys && forall n :: n in old(bound) ==> bound[n] == old(bound[n])
    {
      if name in bound {
        return bound[name];
      }
      cell := |cells|;
      cells := cells + [0];
      bound := bound[name := cell];
    }

    method AddTo(cell: nat, amount: int, ghost name: Name)
      requires Valid() && name in bound && bound[name] == cell
      modifies this`cells
      ensures Valid()
      ensures Values() == old(Values())[name := old(Values())[name] + amount]
    {
      cells := cells[cell := cells[cell] + amount];
    }

    method Bump(name: Name, amount: int)
      requires Valid()
      modifies this`bound, this`cells
      ensures Valid()
      ensures Values() == Bumped(old(Values()), name, amount)
      ensures forall n :: n in old(bound) ==> n in bound && bound[n] == old(bound[n])
    {
      hide OneCellEach;
      var cell := GetOrCreate(name);
      AddTo(cell, amount, name);
    }

    /** Record a completed request under its normalised path. */
    method RecordRequest(verb: string, path: string, status: int, ms: nat)
      requires Valid()
      modifies this
      ensures Valid()
      ensures Values() == Recorded(old(Values()), verb, Normalized(path), status, ms)
      ensures rateLimited == old(rateLimited) + if status == 429 then 1 else 0
    {
      hide Valid, Normalized, OneCellEach;
      var normalized := NormalizePath(path);
      Bump(Hits(verb, normalized, status), 1);
      Bump(TotalMs(verb, normalized), ms);
      Bump(Timed(verb, normalized), 1);
      if status == 429 {
        rateLimited := rateLimited + 1;
      }
    }

    /** Every hit counter, read in turn, the refusals, and the whole seconds since the start. */
    method Snapshot(now: nat) returns (counters: map<Name, int>, limited: nat, uptime: nat)
      requires Valid() && now >= startTime
      ensures counters == Restrict(Values(), HitsOf(bound)) && limited == rateLimited
      ensures uptime * 1000 <= now - startTime < (uptime + 1) * 1000
    {
      counters := map[];
      var left := set name | name in bound && name.Hits?;
      while left != {}
        invariant left <= HitsOf(bound)
        invariant counters == Restrict(Values(), HitsOf(bound) - left)
      {
        var name :| name in left;
        counters := counters[name := cells[bound[name]]];
        left := left - {name};
      }
      limited, uptime := rateLimited, (now - startTime) / 1000;
    }
  }
}
