/**
 * The policy writers — save, delete, translate and scale — in the gateway's two modes, and the
 * proof that a cache fed by etcd's events ends where a gateway without etcd would be.
 */
module Modes {
  import opened ControlPlane
  import opened Policies
  import opened Wrappers

  /** What the language model answered: nothing, text that is no policy, or a policy. */
  datatype Completion = Unavailable | Garbled | Parsed(policy: Policy)

  datatype Advice = Advice(anomalous: bool, suggestion: string, factor: real) {
    predicate Acts() {
      anomalous && suggestion == "increase-limit" && factor > 1.0
    }
  }

  datatype Request =
    | Save(body: Option<Policy>)
    | Remove(id: string)
    | Translate(prompt: string, answer: Completion)
    | Scale(advice: Advice)

  datatype Status = OK | BadRequest | NotFound | InternalError

  /**
   * What becomes of a command to the store: it is carried out and acknowledged, carried out without
   * word of it, or not.
   */
  datatype Link = Works | Unheard | Down

  /** The faults a request meets: those of its first command, and the keys whose later puts are not carried out. */
  datatype Faults = Faults(link: Link, unwritten: set<string>)

  const NO_FAULTS := Faults(Works, {})

  /** Every policy is filed under the ID it carries. */
  ghost predicate Filed(cache: map<string, Policy>) {
    forall id :: id in cache ==> cache[id].id == id
  }

  ghost predicate Stored(cache: map<string, Policy>) {
    forall id :: id in cache ==> cache[id].id == id && cache[id].Complete()
  }

  function ScaledAll(policies: map<string, Policy>, factor: real): map<string, Policy> {
    map id | id in policies :: policies[id].Scaled(factor)
  }

  // ---------- One request, without etcd ----------

  function InMemory(m: map<string, Policy>, req: Request): (map<string, Policy>, Status) {
    match req
    case Save(body) =>
      if body.None? || !body.value.Complete() then (m, BadRequest)
      else (m[body.value.id := body.value.Defaulted()], OK)
    case Remove(id) =>
      if id == "" then (m, BadRequest)
      else if id !in m then (m, NotFound)
      else (m - {id}, OK)
    case Translate(prompt, answer) =>
      if prompt == "" then (m, BadRequest)
      else if !answer.Parsed? || !answer.policy.Complete() then (m, InternalError)
      else (m[answer.policy.id := answer.policy.Defaulted()], OK)
    case Scale(advice) =>
      (if advice.Acts() then ScaledAll(m, advice.factor) else m, OK)
  }

  /** Nothing of the map differs except under one ID. */
  ghost predicate OnlyAt(m: map<string, Policy>, m': map<string, Policy>, id: string) {
    forall other :: other != id ==> At(m', other) == At(m, other)
  }

  /** A policy as it is stored: the one sent, an empty method or tier made a star. */
  ghost predicate StoredAs(p: Policy, q: Policy) {
    && q == p.(verb := q.verb, tier := q.tier)
    && q.verb == (if p.verb == "" then "*" else p.verb) && q.tier == if p.tier == "" then "*" else p.tier
  }

  /**
   * A save needs an ID, a path, a positive limit and a positive window; it then replaces the policy of
   * that ID alone.
   */
  lemma SaveExactly(m: map<string, Policy>, body: Option<Policy>)
    ensures var (m', status) := InMemory(m, Save(body));
      if body.Some? && body.value.id != "" && body.value.path != "" && body.value.limit > 0 && body.value.windowSec > 0
      then
        var id := body.value.id;
        status == OK && id in m' && StoredAs(body.value, m'[id]) && OnlyAt(m, m', id)
      else status == BadRequest && m' == m
  {
  }

  /** A deletion needs an ID, 400 without one and 404 for an unknown one; it then removes that policy alone. */
  lemma RemoveExactly(m: map<string, Policy>, id: string)
    ensures var (m', status) := InMemory(m, Remove(id));
      && (status == BadRequest <==> id == "") && (status == NotFound <==> id != "" && id !in m)
      && (status == OK <==> id != "" && id in m)
      && (status == OK ==> id !in m' && OnlyAt(m, m', id)) && (status != OK ==> m' == m)
  {
  }

  /** A translation needs a prompt, 400 without one, and an answer that is a complete policy, 500 without one. */
  lemma TranslateExactly(m: map<string, Policy>, prompt: string, answer: Completion)
    ensures var (m', status) := InMemory(m, Translate(prompt, answer));
      if prompt == "" then status == BadRequest && m' == m
      else if !answer.Parsed? || answer.policy.id == "" || answer.policy.path == ""
           || answer.policy.limit <= 0 || answer.policy.windowSec <= 0
      then status == InternalError && m' == m
      else
        var id := answer.policy.id;
        status == OK && id in m' && StoredAs(answer.policy, m'[id]) && OnlyAt(m, m', id)
  {
  }

  /** Only a limit may have changed, to within one below the exact product. */
  ghost predicate Multiplied(p: Policy, q: Policy, factor: real) {
    && q == p.(limit := q.limit) && p.limit <= q.limit
    && p.limit as real * factor - 1.0 < q.limit as real <= p.limit as real * factor
  }

  /**
   * Without etcd, advice changes the limits exactly if it finds an anomaly, suggests an increase and
   * gives a factor above one; every limit is then multiplied by the factor, to within one.
   */
  lemma MemoryScalesExactly(m: map<string, Policy>, advice: Advice)
    requires Stored(m)
    ensures var (m', status) := InMemory(m, Scale(advice));
      && m'.Keys == m.Keys
      && if advice.anomalous && advice.suggestion == "increase-limit" && advice.factor > 1.0
         then forall id :: id in m ==> Multiplied(m[id], m'[id], advice.factor)
         else m' == m
  {
    if advice.Acts() {
      forall id | id in m ensures Multiplied(m[id], m[id].Scaled(advice.factor), advice.factor) {
        ScalingKeepsComplete(m[id], advice.factor);
      }
    }
  }

  // ---------- One request, with etcd ----------

  /** One put for each of these keys, in some order, each scaling the value that was read. */
  ghost predicate ScaledPuts(store: map<string, Policy>, factor: real, keys: set<string>, written: seq<Event>)
    requires keys <= store.Keys
  {
    && (forall e :: e in written ==> IsScaledPut(store, factor, e) && e.key in keys)
    && (forall i, j :: 0 <= i < j < |written| ==> written[i].key != written[j].key)
    && (forall key :: key in keys ==> exists i :: 0 <= i < |written| && written[i].key == key)
  }

  ghost predicate IsScaledPut(store: map<string, Policy>, factor: real, e: Event) {
    e.Put? && e.key in store && e.value == store[e.key].Scaled(factor)
  }

  lemma NoPuts(store: map<string, Policy>, factor: real)
    ensures ScaledPuts(store, factor, {}, [])
  {
  }

  lemma OneMorePut(store: map<string, Policy>, factor: real, keys: set<string>, written: seq<Event>, e: Event)
    requires keys <= store.Keys && ScaledPuts(store, factor, keys, written)
    requires IsScaledPut(store, factor, e) && e.key !in keys
    ensures ScaledPuts(store, factor, keys + {e.key}, written + [e])
  {
    var all := written + [e];
    assert all[|written|].key == e.key;
    forall key | key in keys ensures exists i :: 0 <= i < |all| && all[i].key == key {
      var i :| 0 <= i < |written| && written[i].key == key;
      assert all[i].key == key;
    }
  }

  /** The events a request writes and the answer it gets, under the faults it meets. */
  ghost predicate WithEtcd(store: map<string, Policy>, req: Request, faults: Faults, written: seq<Event>,
                           status: Status) {
    match req
    case Save(body) =>
      if body.None? || !body.value.Complete() then written == [] && status == BadRequest
      else WritesPolicy(body.value, faults.link, written, status)
    case Remove(id) =>
      if id == "" then written == [] && status == BadRequest
      else
        && written == (if faults.link.Down? || Key(id) !in store then [] else [Event.Delete(Key(id))])
        && status == if !faults.link.Works? then InternalError else if Key(id) !in store then NotFound else OK
    case Translate(prompt, answer) =>
      if prompt == "" then written == [] && status == BadRequest
      else if !answer.Parsed? || !answer.policy.Complete() then written == [] && status == InternalError
      else WritesPolicy(answer.policy, faults.link, written, status)
    case Scale(advice) =>
      status == OK &&
      if faults.link.Works? && advice.Acts()
      then ScaledPuts(store, advice.factor, store.Keys - faults.unwritten, written)
      else written == []
  }

  ghost predicate WritesPolicy(p: Policy, link: Link, written: seq<Event>, status: Status) {
    && written == (if link.Down? then [] else [Event.Put(Key(p.id), p.Defaulted())])
    && status == if link.Works? then OK else InternalError
  }

  class Etcd {
    var store: map<string, Policy>
    var events: seq<Event>

    constructor ()
      ensures store == map[] && events == []
    {
      store, events := map[], [];
    }

    method Put(key: string, value: Policy)
      modifies this
      ensures events == old(events) + [Event.Put(key, value)]
      ensures store == StoreApply(old(store), Event.Put(key, value))
    {
      store := store[key := value];
      events := events + [Event.Put(key, value)];
    }

    /** Deleting an absent key deletes nothing and raises no event. */
    method Delete(key: string) returns (deleted: nat)
      modifies this
      ensures key !in old(store) ==> deleted == 0 && events == old(events) && store == old(store)
      ensures key in old(store) ==> deleted == 1 && events == old(events) + [Event.Delete(key)]
                                    && store == StoreApply(old(store), Event.Delete(key))
    {
      if key !in store {
        return 0;
      }
      store := store - {key};
      events := events + [Event.Delete(key)];
      return 1;
    }
  }

  class Client {
    const cli: Etcd?
    var policies: map<string, Policy>

    constructor (cli: Etcd?)
      ensures this.cli == cli && policies == map[]
    {
      this.cli := cli;
      policies := map[];
    }

    ghost function Remote(): set<object> {
      if cli == null then {} else {cli}
    }

    method AddPolicyToCache(p: Policy)
      modifies this
      ensures policies == old(policies)[p.id := p]
    {
      policies := policies[p.id := p];
    }

    /** Store an accepted policy where this mode keeps it. */
    method Write(p: Policy, link: Link) returns (status: Status, ghost written: seq<Event>)
      modifies this, Remote()
      ensures cli == null ==> policies == old(policies)[p.id := p.Defaulted()] && status == OK
      ensures cli != null ==>
        && policies == old(policies) && WritesPolicy(p, link, written, status)
        && cli.events == old(cli.events) + written && cli.store == StoreAfter(old(cli.store), written)
    {
      written := [];
      var stored := p.(verb := if p.verb == "" then "*" else p.verb);
      stored := stored.(tier := if stored.tier == "" then "*" else stored.tier);
      if cli == null {
        AddPolicyToCache(stored);
        return OK, written;
      }
      if !link.Down? {
        cli.Put(PREFIX + stored.id, stored);
        written := [Event.Put(Key(p.id), p.Defaulted())];
        assert written[..0] == [];
      }
      return if link.Works? then OK else InternalError, written;
    }

    method SavePolicy(body: Option<Policy>, faults: Faults) returns (status: Status, ghost written: seq<Event>)
      modifies this, Remote()
      ensures cli == null ==> (policies, status) == InMemory(old(policies), Save(body))
      ensures cli != null ==>
        && policies == old(policies) && WithEtcd(old(cli.store), Save(body), faults, written, status)
        && cli.events == old(cli.events) + written && cli.store == StoreAfter(old(cli.store), written)
    {
      written := [];
      if body.None? {
        return BadRequest, written;
      }
      var p := body.value;
      if p.id == "" || p.path == "" || p.limit <= 0 || p.windowSec <= 0 {
        return BadRequest, written;
      }
      status, written := Write(p, faults.link);
    }

    method DeletePolicy(id: string, faults: Faults) returns (status: Status, ghost written: seq<Event>)
      modifies this, Remote()
      ensures cli == null ==> (policies, status) == InMemory(old(policies), Remove(id))
      ensures cli != null ==>
        && policies == old(policies) && WithEtcd(old(cli.store), Remove(id), faults, written, status)
        && cli.events == old(cli.events) + written && cli.store == StoreAfter(old(cli.store), written)
    {
      written := [];
      if id == "" {
        return BadRequest, written;
      }
      if cli == null {
        if id !in policies {
          return NotFound, written;
        }
        policies := policies - {id};
        return OK, written;
      }
      var deleted := 0;
      if !faults.link.Down? {
        deleted := cli.Delete(PREFIX + id);
        if deleted > 0 {
          written := [Event.Delete(Key(id))];
          assert written[..0] == [];
        }
      }
      if !faults.link.Works? {
        return InternalError, written;
      }
      return if deleted == 0 then NotFound else OK, written;
    }

    method TranslatePolicy(prompt: string, answer: Completion, faults: Faults)
      returns (status: Status, ghost written: seq<Event>)
      modifies this, Remote()
      ensures cli == null ==> (policies, status) == InMemory(old(policies), Translate(prompt, answer))
      ensures cli != null ==>
        && policies == old(policies) && WithEtcd(old(cli.store), Translate(prompt, answer), faults, written, status)
        && cli.events == old(cli.events) + written && cli.store == StoreAfter(old(cli.store), written)
    {
      written := [];
      if prompt == "" {
        return BadRequest, written;
      }
      if !answer.Parsed? {
        return InternalError, written;
      }
      var p := answer.policy;
      if p.id == "" || p.path == "" || p.limit <= 0 || p.windowSec <= 0 {
        return InternalError, written;
      }
      status, written := Write(p, faults.link);
    }

    /** Scale every stored limit, one write at a time. */
    method ScaleLimits(advice: Advice, faults: Faults) returns (ghost written: seq<Event>)
      requires cli == null ==> Filed(policies)
      modifies this, Remote()
      ensures cli == null ==> (policies, OK) == InMemory(old(policies), Scale(advice))
      ensures cli != null ==>
        && policies == old(policies) && WithEtcd(old(cli.store), Scale(advice), faults, written, OK)
        && cli.events == old(cli.events) + written && cli.store == StoreAfter(old(cli.store), written)
    {
      written := [];
      if !advice.Acts() {
        return;
      }
      if cli == null {
        ScaleCache(advice.factor);
      } else if faults.link.Works? {
        written := ScaleStore(advice.factor, faults.unwritten);
      }
    }

    method ScaleCache(factor: real)
      requires cli == null && Filed(policies)
      modifies this
      ensures policies == ScaledAll(old(policies), factor)
    {
      ghost var before := policies;
      var read := policies;
      var todo := read.Keys;
      while todo != {}
        invariant todo <= read.Keys && read == before
        invariant policies.Keys == before.Keys
        invariant forall id :: id in before ==>
                    policies[id] == if id in todo then before[id] else before[id].Scaled(factor)
      {
        var id :| id in todo;
        AddPolicyToCache(read[id].Scaled(factor));
        todo := todo - {id};
      }
    }

    method ScaleStore(factor: real, unwritten: set<string>) returns (ghost written: seq<Event>)
      requires cli != null
      modifies cli
      ensures ScaledPuts(old(cli.store), factor, old(cli.store).Keys - unwritten, written)
      ensures cli.events == old(cli.events) + written && cli.store == StoreAfter(old(cli.store), written)
    {
      hide ScaledPuts, Truncate;
      written := [];
      var read := cli.store;
      var todo := read.Keys;
      NoPuts(read, factor);
      assert read.Keys - todo - unwritten == {};
      while todo != {}
        invariant todo <= read.Keys && read == old(cli.store)
        invariant ScaledPuts(read, factor, read.Keys - todo - unwritten, written)
        invariant cli.events == old(cli.events) + written && cli.store == StoreAfter(read, written)
      {
        var key :| key in todo;
        if key !in unwritten {
          cli.Put(key, read[key].Scaled(factor));
          ghost var e := Event.Put(key, read[key].Scaled(factor));
          OneMorePut(read, factor, read.Keys - todo - unwritten, written, e);
          assert (written + [e])[..|written|] == written;
          assert read.Keys - (todo - {key}) - unwritten == read.Keys - todo - unwritten + {key};
          written := written + [e];
        } else {
          assert read.Keys - (todo - {key}) - unwritten == read.Keys - todo - unwritten;
        }
        todo := todo - {key};
      }
      assert read.Keys - todo - unwritten == read.Keys - unwritten;
    }

    /** Load the store's policies, in whatever order they come; without etcd there is nothing to load. */
    method Start(link: Link) returns (started: bool)
      modifies this
      ensures started == (cli == null || link.Works?)
      ensures if cli != null && started
              then Loaded(cli.store, cli.store.Keys, old(policies), policies)
              else policies == old(policies)
    {
      if cli == null { return true; }
      if !link.Works? { return false; }
      hide Loaded;
      var read := cli.store;
      var todo := read.Keys;
      NothingLoaded(read, policies);
      assert read.Keys - todo == {};
      while todo != {}
        invariant todo <= read.Keys && read == cli.store
        invariant Loaded(read, read.Keys - todo, old(policies), policies)
      {
        var key :| key in todo;
        OneMoreLoaded(read, read.Keys - todo, old(policies), policies, key);
        AddPolicyToCache(read[key]);
        assert read.Keys - (todo - {key}) == read.Keys - todo + {key};
        todo := todo - {key};
      }
      assert read.Keys - todo == read.Keys;
      return true;
    }
  }

  // ---------- Loading ----------

  ghost predicate Carried(store: map<string, Policy>, keys: set<string>, id: string, p: Policy)
    requires keys <= store.Keys
  {
    exists key :: key in keys && store[key] == p && p.id == id
  }

  /** The values under these keys, each under the ID it carries, replace what was there before. */
  ghost predicate Loaded(store: map<string, Policy>, keys: set<string>, before: map<string, Policy>,
                         after: map<string, Policy>)
    requires keys <= store.Keys
  {
    && before.Keys <= after.Keys && (forall key :: key in keys ==> store[key].id in after)
    && forall id :: id in after ==>
         if exists key :: key in keys && store[key].id == id then Carried(store, keys, id, after[id])
         else id in before && after[id] == before[id]
  }

  lemma NothingLoaded(store: map<string, Policy>, before: map<string, Policy>)
    ensures Loaded(store, {}, before, before)
  {
  }

  lemma OneMoreLoaded(store: map<string, Policy>, keys: set<string>, before: map<string, Policy>,
                      after: map<string, Policy>, key: string)
    requires keys <= store.Keys && key in store && Loaded(store, keys, before, after)
    ensures Loaded(store, keys + {key}, before, after[store[key].id := store[key]])
  {
    var after' := after[store[key].id := store[key]];
    forall id | id in after' && id != store[key].id && exists k :: k in keys + {key} && store[k].id == id
      ensures Carried(store, keys + {key}, id, after'[id])
    {
      var k :| k in keys + {key} && store[k].id == id;
      assert k in keys;
      var c :| c in keys && store[c] == after[id] && after[id].id == id;
      assert c in keys + {key};
    }
    assert key in keys + {key};
  }

  lemma LoadedEntry(store: map<string, Policy>, cache: map<string, Policy>, id: string) returns (key: string)
    requires Loaded(store, store.Keys, map[], cache) && id in cache
    ensures key in store && store[key] == cache[id] && cache[id].id == id
  {
    key :| key in store.Keys && store[key] == cache[id] && cache[id].id == id;
  }

  lemma KeyedLoadMirrors(store: map<string, Policy>, cache: map<string, Policy>)
    requires Loaded(store, store.Keys, map[], cache)
    requires forall key :: key in store ==> key == Key(store[key].id)
    ensures Mirrors(store, cache)
  {
    forall id ensures At(cache, id) == At(store, Key(id)) {
      if Key(id) in store {
        assert store[Key(id)].id == id;
      }
      if id in cache {
        hide Loaded;
        var key := LoadedEntry(store, cache, id);
      }
    }
  }

  /** What a gateway loads into an empty cache is the store exactly when every key carries its value's ID. */
  lemma LoadMirrorsExactlyWhenKeyed(store: map<string, Policy>, cache: map<string, Policy>)
    requires Loaded(store, store.Keys, map[], cache)
    ensures Mirrors(store, cache) <==> forall key :: key in store ==> key == Key(store[key].id)
  {
    hide Loaded;
    if forall key :: key in store ==> key == Key(store[key].id) {
      KeyedLoadMirrors(store, cache);
    }
    if Mirrors(store, cache) {
      forall key | key in store ensures key == Key(store[key].id) {
        var id := key[|PREFIX|..];
        MirroredEntry(store, cache, id);
        var from := LoadedEntry(store, cache, id);
      }
    }
  }

  lemma StoredUnderItsKey(store: map<string, Policy>, cache: map<string, Policy>, key: string)
    requires Mirrors(store, cache) && Stored(cache) && key in store
    ensures key == Key(store[key].id)
  {
    var id := key[|PREFIX|..];
    assert At(cache, id) == At(store, Key(id));
  }

  // ---------- Agreement ----------

  ghost predicate Wrote(written: seq<Event>, key: string) {
    exists i :: 0 <= i < |written| && written[i].key == key
  }

  lemma WroteStep(written: seq<Event>, key: string)
    requires |written| > 0
    ensures Wrote(written, key) <==> Wrote(written[..|written| - 1], key) || written[|written| - 1].key == key
  {
    var init := written[..|written| - 1];
    if Wrote(init, key) {
      var i :| 0 <= i < |init| && init[i].key == key;
      assert written[i].key == key;
    }
    if Wrote(written, key) && written[|written| - 1].key != key {
      var i :| 0 <= i < |written| && written[i].key == key;
      assert init[i].key == key;
    }
  }

  /** After scaled puts of values read beforehand, exactly their keys are scaled. */
  lemma {:induction false} PutsScale(store: map<string, Policy>, factor: real, written: seq<Event>, key: string)
    requires forall e :: e in written ==> IsScaledPut(store, factor, e)
    ensures key in StoreAfter(store, written) <==> key in store
    ensures key in store ==>
      StoreAfter(store, written)[key] == if Wrote(written, key) then store[key].Scaled(factor) else store[key]
    decreases |written|
  {
    if |written| > 0 {
      PutsScale(store, factor, written[..|written| - 1], key);
      WroteStep(written, key);
      assert IsScaledPut(store, factor, written[|written| - 1]);
    }
  }

  lemma PutsWrite(store: map<string, Policy>, factor: real, keys: set<string>, written: seq<Event>, key: string)
    requires keys <= store.Keys && ScaledPuts(store, factor, keys, written)
    ensures Wrote(written, key) <==> key in keys
  {
    if i :| 0 <= i < |written| && written[i].key == key { assert written[i] in written; }
  }

  /**
   * With etcd the same advice, once the policies could be read, multiplies the limit of every policy
   * whose put takes effect, to within one, and leaves the others as they are.
   */
  lemma EtcdScalesExactly(store: map<string, Policy>, cache: map<string, Policy>, advice: Advice, faults: Faults,
                          written: seq<Event>, status: Status)
    requires Mirrors(store, cache) && Stored(cache)
    requires WithEtcd(store, Scale(advice), faults, written, status)
    ensures var after := StoreAfter(store, written);
      && after.Keys == store.Keys
      && if faults.link.Works? && advice.anomalous && advice.suggestion == "increase-limit" && advice.factor > 1.0
         then forall key :: key in store ==>
                if key in faults.unwritten then after[key] == store[key]
                else Multiplied(store[key], after[key], advice.factor)
         else after == store
  {
    hide Mirrors, Stored, Multiplied;
    if faults.link.Works? && advice.Acts() {
      var after := StoreAfter(store, written);
      forall key
        ensures key in after <==> key in store
        ensures key in store && key in faults.unwritten ==> after[key] == store[key]
        ensures key in store && key !in faults.unwritten ==> Multiplied(store[key], after[key], advice.factor)
      {
        PutsScale(store, advice.factor, written, key);
        PutsWrite(store, advice.factor, store.Keys - faults.unwritten, written, key);
        if key in store { MultipliedAt(store, cache, advice.factor, key); }
      }
    }
  }

  lemma MultipliedAt(store: map<string, Policy>, cache: map<string, Policy>, factor: real, key: string)
    requires Mirrors(store, cache) && Stored(cache) && key in store && factor > 1.0
    ensures Multiplied(store[key], store[key].Scaled(factor), factor)
  {
    var id := key[|PREFIX|..];
    MirroredEntry(store, cache, id);
    ScalingKeepsComplete(store[key], factor);
  }

  lemma ScaledPutsMirror(store: map<string, Policy>, cache: map<string, Policy>, factor: real, written: seq<Event>)
    requires Mirrors(store, cache) && Stored(cache) && factor > 1.0
    requires ScaledPuts(store, factor, store.Keys, written)
    ensures Mirrors(StoreAfter(store, written), ScaledAll(cache, factor)) && Stored(ScaledAll(cache, factor))
    ensures AllKeyed(written)
  {
    var after, scaled := StoreAfter(store, written), ScaledAll(cache, factor);
    forall key ensures key in after <==> key in store
               ensures key in store ==> after[key] == store[key].Scaled(factor)
    {
      PutsScale(store, factor, written, key);
    }
    forall id ensures At(scaled, id) == At(after, Key(id)) {
      MirroredEntry(store, cache, id);
    }
    forall id | id in scaled ensures scaled[id].id == id && scaled[id].Complete() {
      ScalingKeepsComplete(cache[id], factor);
    }
    forall e | e in written ensures WellKeyed(e) {
      StoredUnderItsKey(store, cache, e.key);
    }
  }

  lemma PutMirrors(store: map<string, Policy>, cache: map<string, Policy>, p: Policy)
    requires Mirrors(store, cache) && Stored(cache) && p.Complete()
    ensures Mirrors(StoreAfter(store, [Event.Put(Key(p.id), p.Defaulted())]), cache[p.id := p.Defaulted()])
    ensures Stored(cache[p.id := p.Defaulted()])
    ensures WellKeyed(Event.Put(Key(p.id), p.Defaulted()))
  {
    var e := Event.Put(Key(p.id), p.Defaulted());
    hide Mirrors;
    ApplyMirrors(store, cache, e);
    OneEvent(store, e);
  }

  lemma DeleteMirrors(store: map<string, Policy>, cache: map<string, Policy>, id: string)
    requires Mirrors(store, cache) && Stored(cache)
    ensures Mirrors(StoreAfter(store, [Event.Delete(Key(id))]), cache - {id}) && Stored(cache - {id})
    ensures WellKeyed(Event.Delete(Key(id)))
  {
    var e := Event.Delete(Key(id));
    hide Mirrors;
    ApplyMirrors(store, cache, e);
    OneEvent(store, e);
  }

  /** One request gets the same answer in both modes and leaves the same policies. */
  lemma RequestsAgree(store: map<string, Policy>, cache: map<string, Policy>, req: Request, written: seq<Event>,
                      status: Status)
    requires Mirrors(store, cache) && Stored(cache)
    requires WithEtcd(store, req, NO_FAULTS, written, status)
    ensures InMemory(cache, req).1 == status
    ensures Mirrors(StoreAfter(store, written), InMemory(cache, req).0) && Stored(InMemory(cache, req).0)
    ensures AllKeyed(written)
  {
    hide Mirrors, Stored, WellKeyed, Key, ScaledPuts;
    match req
    case Save(body) =>
      if |written| == 1 { PutMirrors(store, cache, body.value); }
    case Remove(id) =>
      MirroredEntry(store, cache, id);
      if |written| == 1 { DeleteMirrors(store, cache, id); }
    case Translate(_, answer) =>
      if |written| == 1 { PutMirrors(store, cache, answer.policy); }
    case Scale(advice) =>
      assert store.Keys - {} == store.Keys;
      if advice.Acts() { ScaledPutsMirror(store, cache, advice.factor, written); }
  }

  /**
   * Faults only ever turn an answer into an internal error: any other answer to a save, a deletion or
   * a translation is the one the in-memory mode gives, with the same policies left; and a request
   * that wrote anything at all took its whole effect, whatever it answered. A request whose command
   * fails is never answered as carried out or as having found nothing.
   */
  lemma FaultsOnlyHideAnswers(store: map<string, Policy>, cache: map<string, Policy>, req: Request, faults: Faults,
                              written: seq<Event>, status: Status)
    requires Mirrors(store, cache) && Stored(cache) && !req.Scale?
    requires WithEtcd(store, req, faults, written, status)
    ensures status == InMemory(cache, req).1 || (!faults.link.Works? && status == InternalError)
    ensures written != [] || status != InternalError ==> Mirrors(StoreAfter(store, written), InMemory(cache, req).0)
    ensures !faults.link.Works? ==> status in {BadRequest, InternalError}
    ensures faults.link.Down? ==> written == []
    ensures AllKeyed(written)
  {
    hide Mirrors, Stored, WellKeyed, Key;
    match req
    case Save(body) =>
      if |written| == 1 { PutMirrors(store, cache, body.value); }
    case Remove(id) =>
      MirroredEntry(store, cache, id);
      if |written| == 1 { DeleteMirrors(store, cache, id); }
    case Translate(_, answer) =>
      if |written| == 1 { PutMirrors(store, cache, answer.policy); }
  }

  function Flatten(written: seq<seq<Event>>): seq<Event> {
    if |written| == 0 then [] else Flatten(written[..|written| - 1]) + written[|written| - 1]
  }

  /** A run with etcd: what each request wrote and answered, on the store left by those before it. */
  ghost predicate EtcdRun(reqs: seq<Request>, written: seq<seq<Event>>, answers: seq<Status>)
    requires |reqs| == |written| == |answers|
  {
    forall i :: 0 <= i < |reqs| ==>
      WithEtcd(StoreAfter(map[], Flatten(written[..i])), reqs[i], NO_FAULTS, written[i], answers[i])
  }

  function MemoryAfter(reqs: seq<Request>, n: nat): map<string, Policy>
    requires n <= |reqs|
  {
    if n == 0 then map[] else InMemory(MemoryAfter(reqs, n - 1), reqs[n - 1]).0
  }

  ghost predicate RunMirrors(reqs: seq<Request>, written: seq<seq<Event>>, n: nat)
    requires n <= |reqs| == |written|
  {
    && Mirrors(StoreAfter(map[], Flatten(written[..n])), MemoryAfter(reqs, n))
    && Stored(MemoryAfter(reqs, n))
    && AllKeyed(Flatten(written[..n]))
  }

  lemma NothingMirrors()
    ensures Mirrors(map[], map[]) && Stored(map[]) && AllKeyed([])
  {
  }

  lemma KeyedConcat(es: seq<Event>, more: seq<Event>)
    requires AllKeyed(es) && AllKeyed(more)
    ensures AllKeyed(es + more)
  {
  }

  lemma {:induction false} RunKeepsMirror(reqs: seq<Request>, written: seq<seq<Event>>, answers: seq<Status>, n: nat)
    requires |reqs| == |written| == |answers| && EtcdRun(reqs, written, answers) && n <= |reqs|
    ensures RunMirrors(reqs, written, n)
    decreases n
  {
    hide Mirrors, Stored, AllKeyed, InMemory, WithEtcd;
    if n == 0 {
      NothingMirrors();
    } else {
      RunKeepsMirror(reqs, written, answers, n - 1);
      assert written[..n][..n - 1] == written[..n - 1];
      var before := Flatten(written[..n - 1]);
      RequestsAgree(StoreAfter(map[], before), MemoryAfter(reqs, n - 1), reqs[n - 1], written[n - 1], answers[n - 1]);
      StoreAfterConcat(map[], before, written[n - 1]);
      KeyedConcat(before, written[n - 1]);
    }
  }

  /** In any run of requests each one is answered alike in both modes. */
  lemma AnswersAgree(reqs: seq<Request>, written: seq<seq<Event>>, answers: seq<Status>, i: nat)
    requires |reqs| == |written| == |answers| && EtcdRun(reqs, written, answers) && i < |reqs|
    ensures answers[i] == InMemory(MemoryAfter(reqs, i), reqs[i]).1
  {
    hide Mirrors, Stored, AllKeyed, InMemory, WithEtcd;
    RunKeepsMirror(reqs, written, answers, i);
    RequestsAgree(StoreAfter(map[], Flatten(written[..i])), MemoryAfter(reqs, i), reqs[i], written[i], answers[i]);
  }

  /** In any run of requests, once all events are delivered, the cache fed by etcd is the in-memory map. */
  lemma CachesAgree(reqs: seq<Request>, written: seq<seq<Event>>, answers: seq<Status>)
    requires |reqs| == |written| == |answers| && EtcdRun(reqs, written, answers)
    ensures CacheAfter(map[], Flatten(written)) == MemoryAfter(reqs, |reqs|)
  {
    RunKeepsMirror(reqs, written, answers, |reqs|);
    hide Mirrors, AllKeyed, EtcdRun;
    assert written[..|reqs|] == written;
    NothingMirrors();
    ReplayMirrors(map[], map[], Flatten(written));
    MirrorIsUnique(StoreAfter(map[], Flatten(written)), CacheAfter(map[], Flatten(written)), MemoryAfter(reqs, |reqs|));
  }
}
