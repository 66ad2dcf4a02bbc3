/**
 * A gateway without etcd, one atomic step at a time: its writers share one map, a deletion looks
 * before it deletes, and scaling takes the policies one by one and then writes them back one by one.
 */
module Local {
  import opened ControlPlane
  import opened Modes
  import opened Policies
  import opened Wrappers

  /** A policy taken to be scaled, and the revision of the map it was taken from. */
  datatype Taken = Taken(policy: Policy, at: nat)

  datatype Scaling = Scaling(factor: real, reading: bool, visited: set<string>, taken: seq<Taken>) {
    function Took(id: string, t: Taken): Scaling {
      this.(visited := visited + {id}, taken := taken + [t])
    }
  }

  /** A deletion that found its policy, and the revision of the map it looked at. */
  datatype Erasing = Erasing(id: string, at: nat)

  /** The map, what was written to it so far, the deletions about to happen and the scalings under way. */
  datatype World = World(
    policies: map<string, Policy>,
    events: seq<Event>,
    erasers: map<nat, Erasing>,
    scalers: map<nat, Scaling>)

  datatype Step =
    | Accept(p: Policy)
    | Look(eraser: nat, id: string)
    | Erase(eraser: nat)
    | Begin(scaler: nat, factor: real)
    | Take(scaler: nat, id: string)
    | EndReading(scaler: nat)
    | ScaleOne(scaler: nat)

  const START := World(map[], [], map[], map[])

  function Write(w: World, e: Event): World {
    w.(policies := StoreApply(w.policies, e), events := w.events + [e])
  }

  function ScaledPut(t: Taken, factor: real): Event {
    Event.Put(t.policy.id, t.policy.Scaled(factor))
  }

  ghost predicate Next(w: World, step: Step, w': World) {
    match step
    case Accept(p) => p.Complete() && w' == Write(w, Event.Put(p.id, p.Defaulted()))
    case Look(d, id) => id in w.policies && w' == w.(erasers := w.erasers[d := Erasing(id, |w.events|)])
    case Erase(d) =>
      d in w.erasers && w' == Write(w, Event.Delete(w.erasers[d].id)).(erasers := w.erasers - {d})
    case Begin(s, factor) =>
      s !in w.scalers && factor > 1.0 && w' == w.(scalers := w.scalers[s := Scaling(factor, true, {}, [])])
    // A range over the map visits each key at most once and reads it as it is then.
    case Take(s, id) =>
      && s in w.scalers && w.scalers[s].reading && id in w.policies && id !in w.scalers[s].visited
      && w' == w.(scalers := w.scalers[s := w.scalers[s].Took(id, Taken(w.policies[id], |w.events|))])
    case EndReading(s) =>
      s in w.scalers && w.scalers[s].reading && w' == w.(scalers := w.scalers[s := w.scalers[s].(reading := false)])
    case ScaleOne(s) =>
      && s in w.scalers && !w.scalers[s].reading && |w.scalers[s].taken| > 0
      && var q := w.scalers[s];
         w' == Write(w, ScaledPut(q.taken[0], q.factor)).(scalers := w.scalers[s := q.(taken := q.taken[1..])])
  }

  /** What was taken is what the map held under the policy's ID at that revision. */
  ghost predicate SoundTaken(t: Taken, events: seq<Event>) {
    t.at <= |events| && t.policy.Complete() && At(StoreAt(events, t.at), t.policy.id) == Some(t.policy)
  }

  ghost predicate SoundScaling(q: Scaling, events: seq<Event>) {
    && q.factor > 1.0 && OncePerID(q)
    && forall t :: t in q.taken ==> SoundTaken(t, events)
  }

  /** No policy is taken twice. */
  ghost predicate OncePerID(q: Scaling) {
    && (forall t :: t in q.taken ==> t.policy.id in q.visited)
    && forall i, j :: 0 <= i < j < |q.taken| ==> q.taken[i].policy.id != q.taken[j].policy.id
  }

  ghost predicate SoundScalings(scalers: map<nat, Scaling>, events: seq<Event>) {
    forall s :: s in scalers ==> SoundScaling(scalers[s], events)
  }

  /** A deletion under way found its policy in the map. */
  ghost predicate SoundErasers(erasers: map<nat, Erasing>, events: seq<Event>) {
    forall d :: d in erasers ==> SoundErasing(erasers[d], events)
  }

  ghost predicate SoundErasing(e: Erasing, events: seq<Event>) {
    e.at <= |events| && At(StoreAt(events, e.at), e.id).Some?
  }

  ghost predicate Inv(w: World) {
    && w.policies == StoreAt(w.events, |w.events|) && Stored(w.policies)
    && SoundScalings(w.scalers, w.events) && SoundErasers(w.erasers, w.events)
  }

  /** A write that files a complete policy under its own ID, or removes one. */
  predicate Proper(e: Event) {
    e.Put? ==> e.key == e.value.id && e.value.Complete()
  }

  lemma WriteStaysStored(policies: map<string, Policy>, e: Event)
    requires Stored(policies) && Proper(e)
    ensures Stored(StoreApply(policies, e))
  {
  }

  lemma TakenStays(q: Scaling, events: seq<Event>, e: Event)
    requires SoundScaling(q, events)
    ensures SoundScaling(q, events + [e])
  {
    hide StoreAt;
    forall t | t in q.taken ensures SoundTaken(t, events + [e]) {
      assert SoundTaken(t, events);
      PastStays(events, e, t.at);
    }
  }

  lemma ErasingStays(d: Erasing, events: seq<Event>, e: Event)
    requires SoundErasing(d, events)
    ensures SoundErasing(d, events + [e])
  {
    hide StoreAt;
    PastStays(events, e, d.at);
  }

  lemma WriteKeepsInv(w: World, e: Event)
    requires Inv(w) && Proper(e)
    ensures Inv(Write(w, e))
  {
    hide SoundScaling, SoundErasing, Stored, StoreAt, StoreApply, Proper;
    PresentMoves(w.events, e);
    WriteStaysStored(w.policies, e);
    forall s | s in w.scalers ensures SoundScaling(w.scalers[s], w.events + [e]) {
      TakenStays(w.scalers[s], w.events, e);
    }
    forall d | d in w.erasers ensures SoundErasing(w.erasers[d], w.events + [e]) {
      ErasingStays(w.erasers[d], w.events, e);
    }
  }

  lemma LookIsSound(w: World, d: nat, id: string)
    requires Inv(w) && id in w.policies
    ensures Inv(w.(erasers := w.erasers[d := Erasing(id, |w.events|)]))
  {
    hide Stored, StoreAt, SoundScalings;
  }

  lemma FewerErasers(w: World, d: nat)
    requires Inv(w)
    ensures Inv(w.(erasers := w.erasers - {d}))
  {
    hide Stored, StoreAt, SoundScalings, SoundErasing;
  }

  lemma ScalerKeepsInv(w: World, s: nat, q: Scaling)
    requires Inv(w) && SoundScaling(q, w.events)
    ensures Inv(w.(scalers := w.scalers[s := q]))
  {
    hide SoundScaling, Stored, StoreAt, SoundErasers;
  }

  lemma TookOnce(q: Scaling, id: string, t: Taken)
    requires OncePerID(q) && id !in q.visited && t.policy.id == id
    ensures OncePerID(q.Took(id, t))
  {
    forall i | 0 <= i < |q.taken| ensures q.taken[i].policy.id != id {
      assert q.taken[i] in q.taken;
    }
  }

  lemma TookIsSound(w: World, q: Scaling, id: string)
    requires Inv(w) && SoundScaling(q, w.events) && id in w.policies && id !in q.visited
    ensures SoundScaling(q.Took(id, Taken(w.policies[id], |w.events|)), w.events)
  {
    hide StoreAt, SoundScalings, OncePerID;
    TookOnce(q, id, Taken(w.policies[id], |w.events|));
    assert SoundTaken(Taken(w.policies[id], |w.events|), w.events);
  }

  lemma FirstTaken(q: Scaling, events: seq<Event>)
    requires SoundScaling(q, events) && |q.taken| > 0
    ensures SoundTaken(q.taken[0], events) && SoundScaling(q.(taken := q.taken[1..]), events)
    ensures Proper(ScaledPut(q.taken[0], q.factor))
  {
    assert q.taken[0] in q.taken;
    ScalingKeepsComplete(q.taken[0].policy, q.factor);
    hide SoundTaken;
  }

  lemma StepKeepsInv(w: World, step: Step, w': World)
    requires Inv(w) && Next(w, step, w')
    ensures Inv(w')
  {
    hide SoundScaling, Stored, StoreAt, StoreApply, ScaledPut, SoundErasers;
    match step
    case Accept(p) =>
      WriteKeepsInv(w, Event.Put(p.id, p.Defaulted()));
    case Look(d, id) =>
      LookIsSound(w, d, id);
    case Erase(d) =>
      WriteKeepsInv(w, Event.Delete(w.erasers[d].id));
      FewerErasers(Write(w, Event.Delete(w.erasers[d].id)), d);
    case Begin(s, factor) =>
      assert SoundScaling(Scaling(factor, true, {}, []), w.events) by { NothingTaken(factor, w.events); }
      ScalerKeepsInv(w, s, w'.scalers[s]);
    case Take(s, id) =>
      TookIsSound(w, w.scalers[s], id);
      ScalerKeepsInv(w, s, w'.scalers[s]);
    case EndReading(s) =>
      StopsReading(w.scalers[s], w.events);
      ScalerKeepsInv(w, s, w'.scalers[s]);
    case ScaleOne(s) =>
      FirstTaken(w.scalers[s], w.events);
      ScalerKeepsInv(w, s, w'.scalers[s]);
      WriteKeepsInv(w.(scalers := w'.scalers), ScaledPut(w.scalers[s].taken[0], w.scalers[s].factor));
  }

  lemma NothingTaken(factor: real, events: seq<Event>)
    requires factor > 1.0
    ensures SoundScaling(Scaling(factor, true, {}, []), events)
  {
  }

  lemma StopsReading(q: Scaling, events: seq<Event>)
    requires SoundScaling(q, events)
    ensures SoundScaling(q.(reading := false), events)
  {
  }

  ghost predicate IsRun(ws: seq<World>, steps: seq<Step>) {
    && |ws| == |steps| + 1 && ws[0] == START
    && forall i :: 0 <= i < |steps| ==> Next(ws[i], steps[i], ws[i + 1])
  }

  lemma {:induction false} RunKeepsInv(ws: seq<World>, steps: seq<Step>, n: nat)
    requires IsRun(ws, steps) && n < |ws|
    ensures Inv(ws[n])
  {
    if n > 0 {
      RunKeepsInv(ws, steps, n - 1);
      StepKeepsInv(ws[n - 1], steps[n - 1], ws[n]);
    }
  }

  /**
   * At every point of every run each policy of the map is filed under its ID and has a path, a
   * positive limit and a positive window.
   */
  lemma PoliciesStayComplete(ws: seq<World>, steps: seq<Step>, n: nat)
    requires IsRun(ws, steps) && n < |ws|
    ensures forall id :: id in ws[n].policies ==>
              var p := ws[n].policies[id]; p.id == id && p.id != "" && p.path != "" && p.limit > 0 && p.windowSec > 0
  {
    RunKeepsInv(ws, steps, n);
  }

  /** In every run the policies a scaling has still to write are each there once. */
  lemma ScalesEachOnce(ws: seq<World>, steps: seq<Step>, n: nat, s: nat)
    requires IsRun(ws, steps) && n < |ws| && s in ws[n].scalers
    ensures var taken := ws[n].scalers[s].taken;
            forall i, j :: 0 <= i < j < |taken| ==> taken[i].policy.id != taken[j].policy.id
  {
    RunKeepsInv(ws, steps, n);
    hide IsRun, StoreAt, Stored, SoundErasers;
    assert SoundScaling(ws[n].scalers[s], ws[n].events);
  }

  /**
   * What each write of a scaling does in any run: it puts the policy as it was when taken, scaled. It
   * brings the policy back exactly when the last write under its ID since then is a deletion, and it
   * scales the current one exactly when there was none or the last one was a save that scales alike.
   */
  lemma ScalingRevivesExactly(ws: seq<World>, steps: seq<Step>, n: nat, s: nat)
    requires IsRun(ws, steps) && n < |steps| && steps[n] == ScaleOne(s)
    ensures s in ws[n].scalers && |ws[n].scalers[s].taken| > 0 && ws[n].scalers[s].taken[0].at <= |ws[n].events|
    ensures var q, t := ws[n].scalers[s], ws[n].scalers[s].taken[0];
      var id, before, after := t.policy.id, ws[n].policies, ws[n + 1].policies;
      var last := LastFor(ws[n].events[t.at..], id);
      && At(StoreAt(ws[n].events, t.at), id) == Some(t.policy) && after == before[id := t.policy.Scaled(q.factor)]
      && (id !in before <==> last.Some? && last.value.Delete?)
      && (id in before && after[id] == before[id].Scaled(q.factor)
          <==> last.None? || (last.value.Put? && last.value.value.Scaled(q.factor) == after[id]))
  {
    RunKeepsInv(ws, steps, n);
    var w := ws[n];
    assert Next(w, steps[n], ws[n + 1]);
    var q, t := w.scalers[s], w.scalers[s].taken[0];
    hide IsRun, StoreAt, Stored;
    assert SoundScaling(q, w.events);
    FirstTaken(q, w.events);
    StoreSince(w.events, t.at);
    LastDecides(StoreAt(w.events, t.at), w.events[t.at..], t.policy.id);
  }

  /**
   * When a deletion takes effect in any run: it finds nothing left to remove, and yet is answered as
   * one that did, exactly when the last write under its ID since it looked is another deletion.
   */
  lemma ErasesNothingExactly(ws: seq<World>, steps: seq<Step>, n: nat, d: nat)
    requires IsRun(ws, steps) && n < |steps| && steps[n] == Erase(d)
    ensures d in ws[n].erasers && ws[n].erasers[d].at <= |ws[n].events|
    ensures var e := ws[n].erasers[d]; var last := LastFor(ws[n].events[e.at..], e.id);
            && e.id !in ws[n + 1].policies
            && (ws[n + 1].policies == ws[n].policies <==> last.Some? && last.value.Delete?)
  {
    RunKeepsInv(ws, steps, n);
    var w := ws[n];
    assert Next(w, steps[n], ws[n + 1]);
    var e := w.erasers[d];
    hide IsRun, StoreAt, Stored, SoundScalings;
    assert SoundErasing(e, w.events);
    StoreSince(w.events, e.at);
    LastDecides(StoreAt(w.events, e.at), w.events[e.at..], e.id);
    assert w.policies - {e.id} == w.policies <==> e.id !in w.policies;
  }

  /** A policy saved, found by two deletions, and deleted by both. */
  function ErasingTwice(p: Policy): (ws: seq<World>)
    ensures |ws| == 6
  {
    var w1 := Write(START, Event.Put(p.id, p.Defaulted()));
    var w2 := w1.(erasers := w1.erasers[0 := Erasing(p.id, 1)]);
    var w3 := w2.(erasers := w2.erasers[1 := Erasing(p.id, 1)]);
    var w4 := Write(w3, Event.Delete(p.id)).(erasers := w3.erasers - {0});
    var w5 := Write(w4, Event.Delete(p.id)).(erasers := w4.erasers - {1});
    [START, w1, w2, w3, w4, w5]
  }

  /** Two deletions of one policy can both find it, so that the second removes nothing. */
  lemma BothErase(p: Policy)
    requires p.Complete()
    ensures exists ws: seq<World>, steps: seq<Step> ::
      && IsRun(ws, steps) && steps == [Accept(p), Look(0, p.id), Look(1, p.id), Erase(0), Erase(1)]
      && ws[5].policies == ws[4].policies
  {
    var ws, steps := ErasingTwice(p), [Accept(p), Look(0, p.id), Look(1, p.id), Erase(0), Erase(1)];
    hide Policy.Complete;
    assert Next(ws[0], steps[0], ws[1]);
    assert Next(ws[1], steps[1], ws[2]);
    assert Next(ws[2], steps[2], ws[3]);
    assert Next(ws[3], steps[3], ws[4]);
    assert Next(ws[4], steps[4], ws[5]);
    assert IsRun(ws, steps);
  }
}
