/**
 * Many gateways and writers around one etcd store, one atomic step at a time: scaling reads the
 * store and writes it back key by key while others save and delete, and gateways load a snapshot,
 * open their watch later, lose it and reopen it.
 */
module Cluster {
  import opened ControlPlane
  import opened Modes
  import opened Policies
  import opened Wrappers

  /**
   * A gateway's cache, the revision it was loaded at, the one its watch delivers next, and the events
   * delivered so far.
   */
  datatype Replica = Replica(cache: map<string, Policy>, loaded: nat, at: nat, got: seq<nat>)

  /** A scaling under way: its factor, the revision it read, and the writes it has still to make. */
  datatype Scaling = Scaling(factor: real, at: nat, puts: seq<Event>)

  datatype World = World(
    store: map<string, Policy>,
    events: seq<Event>,
    gateways: map<nat, Replica>,
    scalers: map<nat, Scaling>)

  datatype Step =
    | Accept(p: Policy)
    | Erase(id: string)
    | ReadToScale(scaler: nat, factor: real)
    | WriteScaled(scaler: nat)
    | FailToWrite(scaler: nat)
    | Load(gateway: nat)
    | Watch(gateway: nat)
    | Deliver(gateway: nat)

  const START := World(map[], [], map[], map[])

  function Write(w: World, e: Event): World {
    w.(store := StoreApply(w.store, e), events := w.events + [e])
  }

  function Received(r: Replica, e: Event): Replica {
    r.(cache := CacheApply(r.cache, e), at := r.at + 1, got := r.got + [r.at])
  }

  ghost predicate Next(w: World, step: Step, w': World) {
    match step
    // A save or a translation that passed validation.
    case Accept(p) => p.Complete() && w' == Write(w, Event.Put(Key(p.id), p.Defaulted()))
    case Erase(id) => Key(id) in w.store && w' == Write(w, Event.Delete(Key(id)))
    // Scaling reads all policies in one request and then writes them back one by one.
    case ReadToScale(s, factor) =>
      factor > 1.0 && exists puts :: ScaledPuts(w.store, factor, w.store.Keys, puts)
                                     && w' == w.(scalers := w.scalers[s := Scaling(factor, |w.events|, puts)])
    case WriteScaled(s) =>
      s in w.scalers && |w.scalers[s].puts| > 0
      && w' == Write(w, w.scalers[s].puts[0]).(scalers := w.scalers[s := Rest(w.scalers[s])])
    case FailToWrite(s) =>
      s in w.scalers && |w.scalers[s].puts| > 0 && w' == w.(scalers := w.scalers[s := Rest(w.scalers[s])])
    case Load(g) =>
      g !in w.gateways
      && exists cache :: Loaded(w.store, w.store.Keys, map[], cache)
                         && w' == w.(gateways := w.gateways[g := Replica(cache, |w.events|, |w.events|, [])])
    // A watch starts at the present: whatever was written since the gateway's revision is skipped.
    case Watch(g) =>
      g in w.gateways && w' == w.(gateways := w.gateways[g := w.gateways[g].(at := |w.events|)])
    case Deliver(g) =>
      g in w.gateways && w.gateways[g].at < |w.events|
      && w' == w.(gateways := w.gateways[g := Received(w.gateways[g], w.events[w.gateways[g].at])])
  }

  function Rest(q: Scaling): Scaling
    requires |q.puts| > 0
  {
    q.(puts := q.puts[1..])
  }

  /** An event that leaves policies complete and filed under their own ID. */
  predicate Sound(e: Event) {
    WellKeyed(e) && (e.Put? ==> e.value.Complete())
  }

  ghost predicate AllSound(es: seq<Event>) {
    forall i :: 0 <= i < |es| ==> Sound(es[i])
  }

  ghost predicate SoundStore(store: map<string, Policy>) {
    forall key :: key in store ==> key == Key(store[key].id) && store[key].Complete()
  }

  /** Every event since the load has been delivered. */
  predicate Unbroken(r: Replica) {
    r.loaded + |r.got| == r.at
  }

  /** The revision right after the last delivered event about an ID, or that of the load. */
  function Revision(loaded: nat, got: seq<nat>, events: seq<Event>, id: string): (k: nat)
    requires loaded <= |events| && forall i :: 0 <= i < |got| ==> got[i] < |events|
    ensures k <= |events|
  {
    if |got| == 0 then loaded
    else if About(events[got[|got| - 1]], id) then got[|got| - 1] + 1
    else Revision(loaded, got[..|got| - 1], events, id)
  }

  ghost predicate Ranged(r: Replica, events: seq<Event>) {
    r.loaded + |r.got| <= r.at <= |events| && forall i :: 0 <= i < |r.got| ==> r.got[i] < |events|
  }

  /** What the store held under an ID when the gateway last heard of it. */
  function LastHeard(r: Replica, events: seq<Event>, id: string): Option<Policy>
    requires Ranged(r, events)
  {
    At(StoreAt(events, Revision(r.loaded, r.got, events, id)), Key(id))
  }

  ghost predicate Remembers(r: Replica, events: seq<Event>)
    requires Ranged(r, events)
  {
    forall id :: At(r.cache, id) == LastHeard(r, events, id)
  }

  ghost predicate SoundReplica(r: Replica, events: seq<Event>) {
    && Ranged(r, events) && Remembers(r, events)
    && Stored(r.cache)
    && (Unbroken(r) ==> Mirrors(StoreAt(events, r.at), r.cache))
  }

  ghost predicate SoundReplicas(gateways: map<nat, Replica>, events: seq<Event>) {
    forall g :: g in gateways ==> SoundReplica(gateways[g], events)
  }

  /** All the writes a scaling has still to make scale what it read. */
  ghost predicate SoundScaling(q: Scaling, events: seq<Event>) {
    && q.at <= |events| && AllSound(q.puts)
    && forall e :: e in q.puts ==> IsScaledPut(StoreAt(events, q.at), q.factor, e)
  }

  ghost predicate SoundScalings(scalers: map<nat, Scaling>, events: seq<Event>) {
    forall s :: s in scalers ==> SoundScaling(scalers[s], events)
  }

  ghost predicate Inv(w: World) {
    && w.store == StoreAt(w.events, |w.events|)
    && AllSound(w.events) && SoundStore(w.store)
    && SoundReplicas(w.gateways, w.events)
    && SoundScalings(w.scalers, w.events)
  }

  // ---------- Writes ----------

  lemma {:induction false} RevisionStays(loaded: nat, got: seq<nat>, events: seq<Event>, e: Event, id: string)
    requires loaded <= |events| && forall i :: 0 <= i < |got| ==> got[i] < |events|
    ensures Revision(loaded, got, events + [e], id) == Revision(loaded, got, events, id)
  {
    hide About;
    if |got| > 0 { RevisionStays(loaded, got[..|got| - 1], events, e, id); }
  }

  lemma HeardStays(r: Replica, events: seq<Event>, e: Event, id: string)
    requires Ranged(r, events)
    ensures LastHeard(r, events + [e], id) == LastHeard(r, events, id)
  {
    hide StoreAt;
    RevisionStays(r.loaded, r.got, events, e, id);
    PastStays(events, e, Revision(r.loaded, r.got, events, id));
  }

  lemma ReplicaStays(r: Replica, events: seq<Event>, e: Event)
    requires SoundReplica(r, events)
    ensures SoundReplica(r, events + [e])
  {
    hide StoreAt, Mirrors, Stored, LastHeard;
    PastStays(events, e, r.at);
    forall id ensures At(r.cache, id) == LastHeard(r, events + [e], id) {
      HeardStays(r, events, e, id);
    }
  }

  lemma ScalingStays(q: Scaling, events: seq<Event>, e: Event)
    requires SoundScaling(q, events)
    ensures SoundScaling(q, events + [e])
  {
    hide StoreAt, AllSound, IsScaledPut;
    PastStays(events, e, q.at);
  }

  lemma EventsStaySound(events: seq<Event>, e: Event)
    requires AllSound(events) && Sound(e)
    ensures AllSound(events + [e])
  {
    hide Sound;
  }

  lemma StoreKeepsSound(store: map<string, Policy>, e: Event)
    requires SoundStore(store) && Sound(e)
    ensures SoundStore(StoreApply(store, e))
  {
  }

  lemma WriteKeepsInv(w: World, e: Event)
    requires Inv(w) && Sound(e)
    ensures Inv(Write(w, e))
  {
    hide SoundReplica, SoundScaling, AllSound, SoundStore, Sound, StoreAt, StoreApply;
    PresentMoves(w.events, e);
    EventsStaySound(w.events, e);
    StoreKeepsSound(w.store, e);
    forall g | g in w.gateways ensures SoundReplica(w.gateways[g], w.events + [e]) {
      ReplicaStays(w.gateways[g], w.events, e);
    }
    forall s | s in w.scalers ensures SoundScaling(w.scalers[s], w.events + [e]) {
      ScalingStays(w.scalers[s], w.events, e);
    }
  }

  lemma AcceptedIsSound(p: Policy)
    requires p.Complete()
    ensures Sound(Event.Put(Key(p.id), p.Defaulted()))
  {
  }

  lemma ErasureIsSound(id: string)
    ensures Sound(Event.Delete(Key(id)))
  {
  }

  // ---------- Scaling ----------

  lemma ReadIsSound(events: seq<Event>, store: map<string, Policy>, factor: real, puts: seq<Event>)
    requires store == StoreAt(events, |events|) && SoundStore(store)
    requires factor > 1.0 && ScaledPuts(store, factor, store.Keys, puts)
    ensures SoundScaling(Scaling(factor, |events|, puts), events)
  {
    hide StoreAt;
    forall i | 0 <= i < |puts| ensures Sound(puts[i]) {
      assert puts[i] in puts;
      ScalingKeepsComplete(store[puts[i].key], factor);
    }
  }

  lemma RestIsSound(q: Scaling, events: seq<Event>)
    requires SoundScaling(q, events) && |q.puts| > 0
    ensures Sound(q.puts[0]) && SoundScaling(Rest(q), events)
  {
    hide Sound, StoreAt, IsScaledPut;
    forall e | e in q.puts[1..] ensures e in q.puts {}
  }

  lemma ScalerKeepsInv(w: World, s: nat, q: Scaling)
    requires Inv(w) && SoundScaling(q, w.events)
    ensures Inv(w.(scalers := w.scalers[s := q]))
  {
    hide SoundScaling, SoundReplicas, AllSound, SoundStore, StoreAt;
  }

  // ---------- Gateways ----------

  lemma ReplicaKeepsInv(w: World, g: nat, r: Replica)
    requires Inv(w) && SoundReplica(r, w.events)
    ensures Inv(w.(gateways := w.gateways[g := r]))
  {
    hide SoundReplica, SoundScalings, AllSound, SoundStore, StoreAt;
  }

  lemma LoadedIsSound(events: seq<Event>, store: map<string, Policy>, cache: map<string, Policy>)
    requires store == StoreAt(events, |events|) && SoundStore(store) && Loaded(store, store.Keys, map[], cache)
    ensures SoundReplica(Replica(cache, |events|, |events|, []), events)
  {
    hide StoreAt, Mirrors, Loaded;
    var r := Replica(cache, |events|, |events|, []);
    LoadMirrorsExactlyWhenKeyed(store, cache);
    forall id ensures At(cache, id) == LastHeard(r, events, id) {
      MirroredEntry(store, cache, id);
    }
    forall id | id in cache ensures cache[id].id == id && cache[id].Complete() {
      MirroredEntry(store, cache, id);
    }
  }

  lemma WatchedIsSound(r: Replica, events: seq<Event>)
    requires SoundReplica(r, events)
    ensures SoundReplica(r.(at := |events|), events)
  {
    hide StoreAt, Mirrors, Stored, Revision;
    assert forall id :: LastHeard(r.(at := |events|), events, id) == LastHeard(r, events, id);
  }

  lemma CacheKeepsStored(cache: map<string, Policy>, e: Event)
    requires Stored(cache) && Sound(e)
    ensures Stored(CacheApply(cache, e))
  {
  }

  lemma SoundAt(es: seq<Event>, i: nat)
    requires i < |es| && AllSound(es)
    ensures Sound(es[i]) && WellKeyed(es[i])
  {
  }

  /** A delivered event gives its ID the entry the store got from it, and leaves other entries. */
  lemma EntryAfter(store: map<string, Policy>, cache: map<string, Policy>, e: Event, id: string)
    requires WellKeyed(e)
    ensures At(CacheApply(cache, e), id) == if About(e, id) then At(StoreApply(store, e), Key(id)) else At(cache, id)
  {
  }

  lemma RevisionAfter(r: Replica, events: seq<Event>, id: string)
    requires Ranged(r, events) && r.at < |events|
    ensures Ranged(Received(r, events[r.at]), events)
    ensures Revision(r.loaded, r.got + [r.at], events, id)
         == if About(events[r.at], id) then r.at + 1 else Revision(r.loaded, r.got, events, id)
  {
    hide About;
    assert (r.got + [r.at])[..|r.got|] == r.got;
  }

  lemma ReceivedRemembers(r: Replica, events: seq<Event>, id: string)
    requires Ranged(r, events) && Remembers(r, events) && r.at < |events| && AllSound(events)
    ensures Ranged(Received(r, events[r.at]), events)
    ensures At(Received(r, events[r.at]).cache, id) == LastHeard(Received(r, events[r.at]), events, id)
  {
    hide StoreAt, StoreApply, CacheApply, About, Sound, WellKeyed, Revision;
    SoundAt(events, r.at);
    RevisionAfter(r, events, id);
    StoreSteps(events, r.at);
    EntryAfter(StoreAt(events, r.at), r.cache, events[r.at], id);
    assert At(r.cache, id) == LastHeard(r, events, id);
  }

  lemma ReceivedMirrors(r: Replica, events: seq<Event>)
    requires r.at < |events| && AllSound(events) && Mirrors(StoreAt(events, r.at), r.cache)
    ensures Mirrors(StoreAt(events, r.at + 1), CacheApply(r.cache, events[r.at]))
  {
    hide StoreAt, Sound, WellKeyed, Mirrors, AllSound;
    SoundAt(events, r.at);
    ApplyMirrors(StoreAt(events, r.at), r.cache, events[r.at]);
    StoreSteps(events, r.at);
  }

  lemma ReceivedIsSound(r: Replica, events: seq<Event>)
    requires SoundReplica(r, events) && r.at < |events| && AllSound(events)
    ensures SoundReplica(Received(r, events[r.at]), events)
  {
    hide StoreAt, CacheApply, Sound, WellKeyed, Mirrors, Stored, LastHeard, AllSound;
    SoundAt(events, r.at);
    CacheKeepsStored(r.cache, events[r.at]);
    forall id ensures Ranged(Received(r, events[r.at]), events)
                      && At(Received(r, events[r.at]).cache, id) == LastHeard(Received(r, events[r.at]), events, id) {
      ReceivedRemembers(r, events, id);
    }
    if Unbroken(r) { ReceivedMirrors(r, events); }
  }

  // ---------- Runs ----------

  lemma StepKeepsInv(w: World, step: Step, w': World)
    requires Inv(w) && Next(w, step, w')
    ensures Inv(w')
  {
    hide Loaded, SoundStore, ScaledPuts, Sound, SoundReplica, SoundScaling, StoreAt, StoreApply, AllSound;
    match step
    case Accept(p) =>
      AcceptedIsSound(p);
      WriteKeepsInv(w, Event.Put(Key(p.id), p.Defaulted()));
    case Erase(id) =>
      ErasureIsSound(id);
      WriteKeepsInv(w, Event.Delete(Key(id)));
    case ReadToScale(s, factor) =>
      var puts :| ScaledPuts(w.store, factor, w.store.Keys, puts)
                  && w' == w.(scalers := w.scalers[s := Scaling(factor, |w.events|, puts)]);
      ReadIsSound(w.events, w.store, factor, puts);
      ScalerKeepsInv(w, s, Scaling(factor, |w.events|, puts));
    case WriteScaled(s) =>
      RestIsSound(w.scalers[s], w.events);
      ScalerKeepsInv(w, s, Rest(w.scalers[s]));
      WriteKeepsInv(w.(scalers := w.scalers[s := Rest(w.scalers[s])]), w.scalers[s].puts[0]);
    case FailToWrite(s) =>
      RestIsSound(w.scalers[s], w.events);
      ScalerKeepsInv(w, s, Rest(w.scalers[s]));
    case Load(g) =>
      var cache :| Loaded(w.store, w.store.Keys, map[], cache)
                   && w' == w.(gateways := w.gateways[g := Replica(cache, |w.events|, |w.events|, [])]);
      LoadedIsSound(w.events, w.store, cache);
      ReplicaKeepsInv(w, g, w'.gateways[g]);
    case Watch(g) =>
      WatchedIsSound(w.gateways[g], w.events);
      ReplicaKeepsInv(w, g, w'.gateways[g]);
    case Deliver(g) =>
      ReceivedIsSound(w.gateways[g], w.events);
      ReplicaKeepsInv(w, g, w'.gateways[g]);
  }

  ghost predicate IsRun(ws: seq<World>, steps: seq<Step>) {
    && |ws| == |steps| + 1 && ws[0] == START
    && forall i :: 0 <= i < |steps| ==> Next(ws[i], steps[i], ws[i + 1])
  }

  lemma {:induction false} RunKeepsInv(ws: seq<World>, steps: seq<Step>, n: nat)
    requires IsRun(ws, steps) && n < |ws|
    ensures Inv(ws[n])
  {
    if n > 0 {
      RunKeepsInv(ws, steps, n - 1);
      StepKeepsInv(ws[n - 1], steps[n - 1], ws[n]);
    }
  }

  /**
   * Validity under interleaving: at every point of every run, lost watches and half-finished
   * scaling included, each stored and cached policy has its key's ID, a path, a positive limit
   * and a positive window.
   */
  lemma PoliciesStayComplete(ws: seq<World>, steps: seq<Step>, n: nat)
    requires IsRun(ws, steps) && n < |ws|
    ensures forall key :: key in ws[n].store ==>
              var p := ws[n].store[key];
              key == Key(p.id) && p.id != "" && p.path != "" && p.limit > 0 && p.windowSec > 0
    ensures forall g, id :: g in ws[n].gateways && id in ws[n].gateways[g].cache ==>
              var p := ws[n].gateways[g].cache[id];
              p.id == id && p.id != "" && p.path != "" && p.limit > 0 && p.windowSec > 0
  {
    RunKeepsInv(ws, steps, n);
    hide IsRun, Mirrors, StoreAt, Remembers, Ranged;
    forall g, id | g in ws[n].gateways && id in ws[n].gateways[g].cache
      ensures ws[n].gateways[g].cache[id].id == id && ws[n].gateways[g].cache[id].Complete()
    {
      assert SoundReplica(ws[n].gateways[g], ws[n].events);
    }
  }

  // ---------- What a gateway's cache holds ----------

  /** At every point of every run, a gateway that skipped no event holds exactly the store of its revision. */
  lemma CacheIsStoreAtRevision(ws: seq<World>, steps: seq<Step>, n: nat, g: nat)
    requires IsRun(ws, steps) && n < |ws| && g in ws[n].gateways && Unbroken(ws[n].gateways[g])
    ensures ws[n].gateways[g].at <= |ws[n].events|
    ensures Mirrors(StoreAt(ws[n].events, ws[n].gateways[g].at), ws[n].gateways[g].cache)
    ensures ws[n].gateways[g].at == |ws[n].events| ==> Mirrors(ws[n].store, ws[n].gateways[g].cache)
  {
    RunKeepsInv(ws, steps, n);
    hide IsRun, Mirrors, StoreAt;
    assert SoundReplica(ws[n].gateways[g], ws[n].events);
  }

  /**
   * Whatever events a gateway skipped, and however often its watch was lost: its cache is the
   * store of its revision exactly when every entry is still, in the store, what it was when the
   * gateway last heard of it.
   */
  lemma CacheIsStoreExactlyWhen(ws: seq<World>, steps: seq<Step>, n: nat, g: nat)
    requires IsRun(ws, steps) && n < |ws| && g in ws[n].gateways
    ensures Ranged(ws[n].gateways[g], ws[n].events)
    ensures var r, events := ws[n].gateways[g], ws[n].events;
            Mirrors(StoreAt(events, r.at), r.cache) <==>
            forall id :: LastHeard(r, events, id) == At(StoreAt(events, r.at), Key(id))
  {
    RunKeepsInv(ws, steps, n);
    var r, events := ws[n].gateways[g], ws[n].events;
    hide IsRun, StoreAt, LastHeard, StoreApply;
    assert SoundReplica(r, events);
    StoreAtIsSound(events, r.at);
    assert forall id :: At(r.cache, id) == LastHeard(r, events, id);
  }

  lemma {:induction false} StoreAtIsSound(events: seq<Event>, k: nat)
    requires k <= |events| && AllSound(events)
    ensures SoundStore(StoreAt(events, k))
  {
    if k > 0 {
      hide StoreApply, SoundStore, Sound;
      StoreAtIsSound(events, k - 1);
      StoreSteps(events, k - 1);
      StoreKeepsSound(StoreAt(events, k - 1), events[k - 1]);
    }
  }

  /** A policy saved, loaded by a gateway, and deleted before the gateway opens its watch. */
  function SkippingRun(p: Policy): (ws: seq<World>)
    ensures |ws| == 5
  {
    var stored := p.Defaulted();
    var w1 := Write(START, Event.Put(Key(p.id), stored));
    var w2 := w1.(gateways := map[0 := Replica(map[p.id := stored], 1, 1, [])]);
    var w3 := Write(w2, Event.Delete(Key(p.id)));
    var w4 := w3.(gateways := map[0 := Replica(map[p.id := stored], 1, 2, [])]);
    [START, w1, w2, w3, w4]
  }

  lemma LoadsOne(w: World, p: Policy, cache: map<string, Policy>)
    requires w.store == map[Key(p.id) := p] && w.gateways == map[] && cache == map[p.id := p]
    ensures Next(w, Load(0), w.(gateways := map[0 := Replica(cache, |w.events|, |w.events|, [])]))
  {
    assert Key(p.id) in w.store.Keys;
    assert Carried(w.store, w.store.Keys, p.id, p);
  }

  lemma SkippingIsRun(p: Policy)
    requires p.Complete()
    ensures IsRun(SkippingRun(p), [Accept(p), Load(0), Erase(p.id), Watch(0)])
  {
    var ws := SkippingRun(p);
    hide Loaded, Policy.Complete;
    LoadsOne(ws[1], p.Defaulted(), map[p.id := p.Defaulted()]);
    assert Next(ws[0], Accept(p), ws[1]);
    assert Next(ws[2], Erase(p.id), ws[3]);
    assert Next(ws[3], Watch(0), ws[4]);
  }

  /** A deletion that falls between a gateway's load and its watch is never heard of: the gateway keeps the policy. */
  lemma SkippedDeletionStays(p: Policy)
    requires p.Complete()
    ensures exists ws: seq<World>, steps: seq<Step> ::
      && IsRun(ws, steps) && steps == [Accept(p), Load(0), Erase(p.id), Watch(0)]
      && 0 in ws[4].gateways
      && var r := ws[4].gateways[0];
         r.at == |ws[4].events| && p.id in r.cache && Key(p.id) !in ws[4].store && !Mirrors(ws[4].store, r.cache)
  {
    var w := SkippingRun(p)[4];
    SkippingIsRun(p);
    hide IsRun, Mirrors;
    if Mirrors(w.store, w.gateways[0].cache) { MirroredEntry(w.store, w.gateways[0].cache, p.id); }
  }

  // ---------- What scaling does to what was written meanwhile ----------

  /** A scaling's factor and the revision it read are those of the step that read for it last. */
  lemma {:induction false} ScalingKeepsReading(ws: seq<World>, steps: seq<Step>, r: nat, n: nat, s: nat, factor: real)
    requires IsRun(ws, steps) && r < n <= |steps| && steps[r] == ReadToScale(s, factor)
    requires forall m :: r < m < n && steps[m].ReadToScale? ==> steps[m].scaler != s
    ensures s in ws[n].scalers && ws[n].scalers[s].at == |ws[r].events| && ws[n].scalers[s].factor == factor
  {
    hide ScaledPuts, Loaded;
    if r + 1 < n { ScalingKeepsReading(ws, steps, r, n - 1, s, factor); }
    assert Next(ws[n - 1], steps[n - 1], ws[n]);
  }

  /**
   * What each write of a scaling does in any run: it puts the value read at the start, scaled. It
   * brings a policy back exactly when the last event about it since the reading is a deletion, and
   * it scales the current value exactly when there was no event or the last one was a save that
   * scales alike; any other save is lost.
   */
  lemma ScalingRevivesExactly(ws: seq<World>, steps: seq<Step>, n: nat, s: nat)
    requires IsRun(ws, steps) && n < |steps| && steps[n] == WriteScaled(s)
    ensures s in ws[n].scalers && |ws[n].scalers[s].puts| > 0 && ws[n].scalers[s].at <= |ws[n].events|
    ensures var q := ws[n].scalers[s];
      var key, before, after := q.puts[0].key, ws[n].store, ws[n + 1].store;
      var read, last := StoreAt(ws[n].events, q.at), LastFor(ws[n].events[q.at..], key);
      && key in read && after == before[key := read[key].Scaled(q.factor)]
      && (key !in before <==> last.Some? && last.value.Delete?)
      && (key in before && after[key] == before[key].Scaled(q.factor)
          <==> last.None? || (last.value.Put? && last.value.value.Scaled(q.factor) == after[key]))
  {
    RunKeepsInv(ws, steps, n);
    var w := ws[n];
    assert Next(w, steps[n], ws[n + 1]);
    var q := w.scalers[s];
    hide IsRun, StoreAt, SoundReplicas, AllSound;
    assert SoundScaling(q, w.events);
    assert q.puts[0] in q.puts;
    StoreSince(w.events, q.at);
    LastDecides(StoreAt(w.events, q.at), w.events[q.at..], q.puts[0].key);
  }

  /** A policy saved, read by a scaling, deleted, and then written by the scaling. */
  function RevivingRun(p: Policy): (ws: seq<World>)
    ensures |ws| == 5
  {
    var stored := p.Defaulted();
    var put := Event.Put(Key(p.id), stored.Scaled(2.0));
    var w1 := Write(START, Event.Put(Key(p.id), stored));
    var w2 := w1.(scalers := map[0 := Scaling(2.0, 1, [put])]);
    var w3 := Write(w2, Event.Delete(Key(p.id)));
    var w4 := Write(w3, put).(scalers := map[0 := Scaling(2.0, 1, [])]);
    [START, w1, w2, w3, w4]
  }

  lemma ReadsOne(w: World, p: Policy, put: Event)
    requires w.store == map[Key(p.id) := p] && w.scalers == map[] && put == Event.Put(Key(p.id), p.Scaled(2.0))
    ensures Next(w, ReadToScale(0, 2.0), w.(scalers := map[0 := Scaling(2.0, |w.events|, [put])]))
  {
    hide Policy.Scaled;
    assert [put][0].key == Key(p.id);
    assert ScaledPuts(w.store, 2.0, w.store.Keys, [put]);
  }

  /** Scaling is not atomic: a policy deleted between scaling's read and its write comes back. */
  lemma ScalingRevivesDeleted(p: Policy)
    requires p.Complete()
    ensures exists ws: seq<World>, steps: seq<Step> ::
      && IsRun(ws, steps) && |steps| == 4
      && steps == [Accept(p), ReadToScale(0, 2.0), Erase(p.id), WriteScaled(0)]
      && Key(p.id) !in ws[3].store && Key(p.id) in ws[4].store
  {
    var ws, steps := RevivingRun(p), [Accept(p), ReadToScale(0, 2.0), Erase(p.id), WriteScaled(0)];
    hide Policy.Complete, Policy.Scaled, ScaledPuts;
    ReadsOne(ws[1], p.Defaulted(), Event.Put(Key(p.id), p.Defaulted().Scaled(2.0)));
    assert Next(ws[0], steps[0], ws[1]);
    assert Next(ws[2], steps[2], ws[3]);
    assert Next(ws[3], steps[3], ws[4]);
    assert IsRun(ws, steps);
  }
}
