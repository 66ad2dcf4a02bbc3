/**
 * The policy store and its replicas: what events do to the store and to a cache that follows it,
 * and when a cache that missed some of them is the store again.
 */
module ControlPlane {
  import opened Policies
  import opened Wrappers

  const PREFIX := "/zengate/policies/"

  function Key(id: string): (key: string)
    ensures |key| == |PREFIX| + |id| && key[|PREFIX|..] == id
    ensures key == "/zengate/policies/" + id
  {
    PREFIX + id
  }

  datatype Event = Put(key: string, value: Policy) | Delete(key: string)

  // ---------- The store and its replica ----------

  function StoreApply(store: map<string, Policy>, e: Event): map<string, Policy> {
    match e
    case Put(key, value) => store[key := value]
    case Delete(key) => store - {key}
  }

  function StoreAfter(store: map<string, Policy>, es: seq<Event>): map<string, Policy> {
    if |es| == 0 then store else StoreApply(StoreAfter(store, es[..|es| - 1]), es[|es| - 1])
  }

  /** A watcher files a written policy under the ID it carries, and a deletion under its key's suffix. */
  function CacheApply(cache: map<string, Policy>, e: Event): map<string, Policy> {
    match e
    case Put(_, value) => cache[value.id := value]
    case Delete(key) => if |key| >= |PREFIX| then cache - {key[|PREFIX|..]} else cache
  }

  function CacheAfter(cache: map<string, Policy>, es: seq<Event>): map<string, Policy> {
    if |es| == 0 then cache else CacheApply(CacheAfter(cache, es[..|es| - 1]), es[|es| - 1])
  }

  function At(cache: map<string, Policy>, id: string): Option<Policy> {
    if id in cache then Some(cache[id]) else None
  }

  /** The cache is the store with the prefix taken off its keys. */
  ghost predicate Mirrors(store: map<string, Policy>, cache: map<string, Policy>) {
    && (forall key :: key in store ==> |key| >= |PREFIX| && key == Key(key[|PREFIX|..]))
    && (forall id :: At(cache, id) == At(store, Key(id)))
  }

  /** An event whose key is the prefix followed by the ID it is about. */
  predicate WellKeyed(e: Event) {
    match e
    case Put(key, value) => key == Key(value.id)
    case Delete(key) => |key| >= |PREFIX| && key == Key(key[|PREFIX|..])
  }

  ghost predicate AllKeyed(es: seq<Event>) {
    forall e :: e in es ==> WellKeyed(e)
  }

  lemma ApplyMirrors(store: map<string, Policy>, cache: map<string, Policy>, e: Event)
    requires Mirrors(store, cache) && WellKeyed(e)
    ensures Mirrors(StoreApply(store, e), CacheApply(cache, e))
  {
    var id := e.key[|PREFIX|..];
    forall other ensures At(CacheApply(cache, e), other) == At(StoreApply(store, e), Key(other)) {
      assert other != id ==> Key(other) != e.key;
      assert At(cache, other) == At(store, Key(other));
    }
  }

  /** Replay is a refinement: delivering a stretch of well-keyed events keeps a replica a replica. */
  lemma {:induction false} ReplayMirrors(store: map<string, Policy>, cache: map<string, Policy>, es: seq<Event>)
    requires Mirrors(store, cache) && AllKeyed(es)
    ensures Mirrors(StoreAfter(store, es), CacheAfter(cache, es))
    decreases |es|
  {
    if |es| > 0 {
      ReplayMirrors(store, cache, es[..|es| - 1]);
      ApplyMirrors(StoreAfter(store, es[..|es| - 1]), CacheAfter(cache, es[..|es| - 1]), es[|es| - 1]);
    }
  }

  /** Two caches that mirror one store are one cache. */
  lemma MirrorIsUnique(store: map<string, Policy>, a: map<string, Policy>, b: map<string, Policy>)
    requires Mirrors(store, a) && Mirrors(store, b)
    ensures a == b
  {
    forall id ensures At(a, id) == At(b, id) {
      assert At(a, id) == At(store, Key(id));
    }
    assert forall id :: id in a <==> At(a, id).Some?;
    assert forall id :: id in b <==> At(b, id).Some?;
    forall id | id in a ensures id in b && a[id] == b[id] {
      assert At(a, id) == At(b, id);
    }
    forall id | id in b ensures id in a {
      assert At(a, id) == At(b, id);
    }
  }

  lemma {:induction false} StoreAfterConcat(store: map<string, Policy>, es: seq<Event>, more: seq<Event>)
    ensures StoreAfter(store, es + more) == StoreAfter(StoreAfter(store, es), more)
    decreases |more|
  {
    if |more| == 0 {
      assert es + more == es;
    } else {
      assert (es + more)[..|es + more| - 1] == es + more[..|more| - 1];
      StoreAfterConcat(store, es, more[..|more| - 1]);
    }
  }

  lemma OneMoreEvent(store: map<string, Policy>, es: seq<Event>, e: Event)
    ensures StoreAfter(store, es + [e]) == StoreApply(StoreAfter(store, es), e)
  {
    assert (es + [e])[..|es|] == es;
  }

  lemma OneEvent(store: map<string, Policy>, e: Event)
    ensures StoreAfter(store, [e]) == StoreApply(store, e)
  {
    assert [e][..0] == [];
  }

  /** The last event about a key. */
  function LastFor(es: seq<Event>, key: string): (last: Option<Event>)
    ensures last.Some? ==> last.value in es && last.value.key == key
  {
    if |es| == 0 then None
    else if es[|es| - 1].key == key then Some(es[|es| - 1])
    else LastFor(es[..|es| - 1], key)
  }

  /** What a store holds under a key is what the last event about it left, or what was there before. */
  lemma {:induction false} LastDecides(store: map<string, Policy>, es: seq<Event>, key: string)
    ensures At(StoreAfter(store, es), key)
         == match LastFor(es, key)
            case None => At(store, key)
            case Some(Put(_, value)) => Some(value)
            case Some(Delete(_)) => None
    decreases |es|
  {
    if |es| > 0 { LastDecides(store, es[..|es| - 1], key); }
  }

  // ---------- Revisions ----------

  /** The store after the first k events. */
  function StoreAt(events: seq<Event>, k: nat): map<string, Policy>
    requires k <= |events|
  {
    StoreAfter(map[], events[..k])
  }

  /** Further events leave the past as it was. */
  lemma PastStays(events: seq<Event>, e: Event, k: nat)
    requires k <= |events|
    ensures StoreAt(events + [e], k) == StoreAt(events, k)
  {
    assert (events + [e])[..k] == events[..k];
  }

  lemma PresentMoves(events: seq<Event>, e: Event)
    ensures StoreAt(events + [e], |events| + 1) == StoreApply(StoreAt(events, |events|), e)
  {
    assert events[..|events|] == events;
    assert (events + [e])[..|events| + 1] == events + [e];
    OneMoreEvent(map[], events, e);
  }

  lemma StoreSteps(events: seq<Event>, k: nat)
    requires k < |events|
    ensures StoreAt(events, k + 1) == StoreApply(StoreAt(events, k), events[k])
  {
    assert events[..k + 1] == events[..k] + [events[k]];
    OneMoreEvent(map[], events[..k], events[k]);
  }

  /** The present is the past followed by what happened since. */
  lemma StoreSince(events: seq<Event>, k: nat)
    requires k <= |events|
    ensures StoreAt(events, |events|) == StoreAfter(StoreAt(events, k), events[k..])
  {
    assert events[..k] + events[k..] == events[..|events|];
    StoreAfterConcat(map[], events[..k], events[k..]);
  }

  // ---------- Watches that miss events ----------

  predicate About(e: Event, id: string) {
    match e
    case Put(_, value) => value.id == id
    case Delete(key) => |key| >= |PREFIX| && key[|PREFIX|..] == id
  }

  ghost predicate Rewritten(es: seq<Event>, id: string) {
    exists i :: 0 <= i < |es| && About(es[i], id)
  }

  /** Two caches agree on an ID after the same events exactly when they agreed before or the events rewrite it. */
  lemma {:induction false} AgreeAfter(a: map<string, Policy>, b: map<string, Policy>, es: seq<Event>, id: string)
    ensures At(CacheAfter(a, es), id) == At(CacheAfter(b, es), id) <==> Rewritten(es, id) || At(a, id) == At(b, id)
    decreases |es|
  {
    if |es| > 0 {
      var init := es[..|es| - 1];
      AgreeAfter(a, b, init, id);
      if About(es[|es| - 1], id) {
        assert Rewritten(es, id);
      } else {
        assert Rewritten(es, id) <==> Rewritten(init, id) by {
          if i :| 0 <= i < |es| && About(es[i], id) { assert About(init[i], id); }
          if i :| 0 <= i < |init| && About(init[i], id) { assert About(es[i], id); }
        }
      }
    }
  }

  /**
   * A watch carries no revision, so one opened at revision w over a cache taken at revision r
   * misses the events between. After `later` the cache is the store again exactly when every
   * policy the missed events changed has since been rewritten.
   */
  lemma GapHealsExactlyWhenRewritten(store: map<string, Policy>, cache: map<string, Policy>, missed: seq<Event>,
                                     later: seq<Event>)
    requires Mirrors(store, cache)
    requires AllKeyed(missed) && AllKeyed(later)
    ensures Mirrors(StoreAfter(store, missed + later), CacheAfter(cache, later)) <==>
            forall id :: At(StoreAfter(store, missed), Key(id)) != At(store, Key(id)) ==> Rewritten(later, id)
  {
    hide Mirrors, Key, At, Rewritten, AllKeyed;
    var atWatch := StoreAfter(store, missed);
    var ideal := CacheAfter(cache, missed);
    ReplayMirrors(store, cache, missed);
    ReplayMirrors(atWatch, ideal, later);
    StoreAfterConcat(store, missed, later);
    MirrorsByEntry(StoreAfter(atWatch, later), CacheAfter(ideal, later), CacheAfter(cache, later));
    forall id ensures At(CacheAfter(cache, later), id) == At(CacheAfter(ideal, later), id)
                 <==> (At(atWatch, Key(id)) != At(store, Key(id)) ==> Rewritten(later, id))
    {
      AgreeAfter(cache, ideal, later, id);
      MirroredEntry(store, cache, id);
      MirroredEntry(atWatch, ideal, id);
    }
  }

  lemma MirroredEntry(store: map<string, Policy>, cache: map<string, Policy>, id: string)
    requires Mirrors(store, cache)
    ensures At(cache, id) == At(store, Key(id))
  {
  }

  lemma MirrorsByEntry(store: map<string, Policy>, mirror: map<string, Policy>, cache: map<string, Policy>)
    requires Mirrors(store, mirror)
    ensures Mirrors(store, cache) <==> forall id :: At(cache, id) == At(mirror, id)
  {
    forall id ensures At(mirror, id) == At(store, Key(id)) {
      MirroredEntry(store, mirror, id);
    }
  }
}
