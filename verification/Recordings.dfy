/**
 * What the counters of the registry mean under concurrency: the requests recorded, with their
 * statuses and durations, and how recent the values of a snapshot are.
 */
module Recordings {
  import opened Metrics
  import opened Sums

  // ---------- What each counter counts ----------

  /** The hits added for a method, path and status. */
  function HitsLogged(log: seq<Added>, verb: string, path: string, status: int): nat {
    if |log| == 0 then 0
    else
      var a := log[|log| - 1];
      HitsLogged(log[..|log| - 1], verb, path, status)
      + if a.stage == Request && a.job.verb == verb && a.job.path == path && a.job.status == status then 1 else 0
  }

  /** The milliseconds of the recordings of a method and path that completed this stage. */
  function MsLogged(log: seq<Added>, stage: Stage, verb: string, path: string): nat {
    if |log| == 0 then 0
    else
      var a := log[|log| - 1];
      MsLogged(log[..|log| - 1], stage, verb, path)
      + if a.stage == stage && a.job.verb == verb && a.job.path == path then a.job.ms else 0
  }

  lemma {:induction false} TallyOfHits(log: seq<Added>, verb: string, path: string, status: int)
    ensures Tally(log, Hits(verb, path, status)) == HitsLogged(log, verb, path, status)
  {
    if |log| > 0 { TallyOfHits(log[..|log| - 1], verb, path, status); }
  }

  lemma {:induction false} TallyOfMs(log: seq<Added>, verb: string, path: string)
    ensures Tally(log, TotalMs(verb, path)) == MsLogged(log, LatencySum, verb, path)
  {
    if |log| > 0 { TallyOfMs(log[..|log| - 1], verb, path); }
  }

  /** What a counter reads, zero before it exists. */
  function Reading(w: World, name: Name): int
    requires name in w.bound ==> w.bound[name] < |w.cells|
  {
    if name in w.bound then w.cells[w.bound[name]] else 0
  }

  /**
   * In every interleaving a request counter reads the number of recordings of its method, path and
   * status that passed their first add, and a latency sum the milliseconds of those that passed their second.
   */
  lemma CountersAreRecordings(ws: seq<World>, steps: seq<Step>, n: nat, verb: string, path: string, status: int)
    requires IsRun(ws, steps) && n < |ws|
    ensures forall name :: name in ws[n].bound ==> ws[n].bound[name] < |ws[n].cells|
    ensures Reading(ws[n], Hits(verb, path, status)) == HitsLogged(ws[n].log, verb, path, status)
    ensures Reading(ws[n], TotalMs(verb, path)) == MsLogged(ws[n].log, LatencySum, verb, path)
  {
    hide IsRun, Tally;
    forall name ensures name in ws[n].bound ==> ws[n].bound[name] < |ws[n].cells| {
      NoLostCounts(ws, steps, n, name);
    }
    NoLostCounts(ws, steps, n, Hits(verb, path, status));
    NoLostCounts(ws, steps, n, TotalMs(verb, path));
    TallyOfHits(ws[n].log, verb, path, status);
    TallyOfMs(ws[n].log, verb, path);
  }

  // ---------- No lost milliseconds ----------

  predicate IsPending(thread: Thread, verb: string, path: string) {
    thread.stage == LatencySum && thread.job.verb == verb && thread.job.path == path
  }

  /** The milliseconds of the recordings that have counted their hit and have still to add their duration. */
  function Pending(threads: map<nat, Thread>, verb: string, path: string): map<nat, int> {
    map t | t in threads && IsPending(threads[t], verb, path) :: threads[t].job.ms
  }

  function Owed(thread: Thread, verb: string, path: string): nat {
    if IsPending(thread, verb, path) then thread.job.ms else 0
  }

  function OwedBy(threads: map<nat, Thread>, t: nat, verb: string, path: string): nat {
    if t in threads then Owed(threads[t], verb, path) else 0
  }

  lemma PendingPut(threads: map<nat, Thread>, t: nat, thread: Thread, verb: string, path: string)
    ensures Sum(Pending(threads[t := thread], verb, path))
         == Sum(Pending(threads, verb, path)) - OwedBy(threads, t, verb, path) + Owed(thread, verb, path)
  {
    var before, after := Pending(threads, verb, path), Pending(threads[t := thread], verb, path);
    Without(before, t);
    Without(after, t);
    assert after - {t} == before - {t};
  }

  lemma PendingDrop(threads: map<nat, Thread>, t: nat, verb: string, path: string)
    ensures Sum(Pending(threads - {t}, verb, path))
         == Sum(Pending(threads, verb, path)) - OwedBy(threads, t, verb, path)
  {
    Without(Pending(threads, verb, path), t);
    assert Pending(threads - {t}, verb, path) == Pending(threads, verb, path) - {t};
  }

  ghost predicate NoMsLost(w: World, verb: string, path: string) {
    MsLogged(w.log, Request, verb, path)
      == MsLogged(w.log, LatencySum, verb, path) + Sum(Pending(w.threads, verb, path))
  }

  lemma OneMoreLogged(log: seq<Added>, a: Added, stage: Stage, verb: string, path: string)
    ensures MsLogged(log + [a], stage, verb, path)
         == MsLogged(log, stage, verb, path)
          + if a.stage == stage && a.job.verb == verb && a.job.path == path then a.job.ms else 0
  {
    assert (log + [a])[..|log|] == log;
  }

  lemma AddMoves(w: World, t: nat, w': World)
    requires Next(w, Add(t), w')
    ensures t in w.threads && w'.log == w.log + [Added(w.threads[t].stage, w.threads[t].job)]
    ensures w'.threads == Advance(w.threads, t, w.threads[t].job, w.threads[t].stage)
  {
  }

  lemma AddKeepsMs(w: World, t: nat, w': World, verb: string, path: string)
    requires NoMsLost(w, verb, path) && Next(w, Add(t), w')
    ensures NoMsLost(w', verb, path)
  {
    hide Pending, MsLogged, Next;
    AddMoves(w, t, w');
    var thread := w.threads[t];
    OneMoreLogged(w.log, Added(thread.stage, thread.job), Request, verb, path);
    OneMoreLogged(w.log, Added(thread.stage, thread.job), LatencySum, verb, path);
    if thread.stage == LatencyCount {
      PendingDrop(w.threads, t, verb, path);
    } else {
      PendingPut(w.threads, t, w'.threads[t], verb, path);
    }
  }

  lemma StepKeepsMs(w: World, step: Step, w': World, verb: string, path: string)
    requires NoMsLost(w, verb, path) && Next(w, step, w')
    ensures NoMsLost(w', verb, path)
  {
    hide Pending;
    match step
    case Add(t) => AddKeepsMs(w, t, w', verb, path);
    case Begin(t, _) => PendingPut(w.threads, t, w'.threads[t], verb, path);
    case Check(t) => PendingPut(w.threads, t, w'.threads[t], verb, path);
    case Recheck(t) => PendingPut(w.threads, t, w'.threads[t], verb, path);
    case _ =>
  }

  lemma {:induction false} RunKeepsMs(ws: seq<World>, steps: seq<Step>, n: nat, verb: string, path: string)
    requires IsRun(ws, steps) && n < |ws|
    ensures NoMsLost(ws[n], verb, path)
  {
    if n > 0 {
      RunKeepsMs(ws, steps, n - 1, verb, path);
      hide NoMsLost;
      StepKeepsMs(ws[n - 1], steps[n - 1], ws[n], verb, path);
    } else {
      assert Pending(ws[0].threads, verb, path) == map[];
    }
  }

  /**
   * In every interleaving the durations of the requests counted for a method and path are what its
   * latency sum reads and what recordings half done still owe it; with none under way, exactly the sum.
   */
  lemma LatencyIsExact(ws: seq<World>, steps: seq<Step>, n: nat, verb: string, path: string)
    requires IsRun(ws, steps) && n < |ws|
    ensures TotalMs(verb, path) in ws[n].bound ==> ws[n].bound[TotalMs(verb, path)] < |ws[n].cells|
    ensures MsLogged(ws[n].log, Request, verb, path)
         == Reading(ws[n], TotalMs(verb, path)) + Sum(Pending(ws[n].threads, verb, path))
    ensures ws[n].threads == map[] ==>
              MsLogged(ws[n].log, Request, verb, path) == Reading(ws[n], TotalMs(verb, path))
  {
    hide IsRun, Pending;
    RunKeepsMs(ws, steps, n, verb, path);
    CountersAreRecordings(ws, steps, n, verb, path, 0);
    if ws[n].threads == map[] { NothingPending(verb, path); }
  }

  lemma NothingPending(verb: string, path: string)
    ensures Sum(Pending(map[], verb, path)) == 0
  {
    assert Pending(map[], verb, path) == map[];
  }

  // ---------- How recent a snapshot is ----------

  /** A counter is the same cell later on, and reads no less. */
  ghost predicate Risen(w: World, w': World, name: Name) {
    && name in w.bound && name in w'.bound && w.bound[name] < |w.cells| && w'.bound[name] < |w'.cells|
    && w'.bound[name] == w.bound[name] && Reading(w', name) >= Reading(w, name)
  }

  lemma StepOnlyRaises(w: World, step: Step, w': World, name: Name)
    requires Inv(w) && Next(w, step, w') && name in w.bound
    ensures Risen(w, w', name)
  {
    hide NothingLost, ThreadsSound, ReadersSound;
  }

  lemma RisenTwice(a: World, b: World, c: World, name: Name)
    requires Risen(a, b, name) && Risen(b, c, name)
    ensures Risen(a, c, name)
  {
  }

  lemma StepOfRun(ws: seq<World>, steps: seq<Step>, n: nat)
    requires IsRun(ws, steps) && n < |steps|
    ensures |ws| == |steps| + 1 && Next(ws[n], steps[n], ws[n + 1])
  {
  }

  lemma RunLength(ws: seq<World>, steps: seq<Step>)
    requires IsRun(ws, steps)
    ensures |ws| == |steps| + 1
  {
  }

  lemma IsItself(w: World, name: Name)
    requires Inv(w) && name in w.bound
    ensures Risen(w, w, name)
  {
  }

  lemma StillBound(w: World, w': World, name: Name)
    requires Risen(w, w', name)
    ensures name in w'.bound
  {
  }

  /** A counter never moves and never falls. */
  lemma {:induction false} CountersOnlyRise(ws: seq<World>, steps: seq<Step>, a: nat, b: nat, name: Name)
    requires IsRun(ws, steps) && a <= b < |ws| && name in ws[a].bound
    ensures Risen(ws[a], ws[b], name)
    decreases b
  {
    hide IsRun, Inv, Next, Risen;
    RunLength(ws, steps);
    if a < b {
      CountersOnlyRise(ws, steps, a, b - 1, name);
      StillBound(ws[a], ws[b - 1], name);
      RunKeepsInv(ws, steps, b - 1);
      StepOfRun(ws, steps, b - 1);
      StepOnlyRaises(ws[b - 1], steps[b - 1], ws[b], name);
      RisenTwice(ws[a], ws[b - 1], ws[b], name);
    } else {
      RunKeepsInv(ws, steps, b);
      IsItself(ws[a], name);
    }
  }

  /** The step begins or ends a snapshot of this reader. */
  predicate Turns(step: Step, r: nat) {
    (step.StartSnapshot? || step.EndSnapshot?) && step.reader == r
  }

  /** What a reader has read since a moment is at least what the counters read at it. */
  ghost predicate ReadSince(w: World, r: nat, start: World) {
    r in w.readers && w.readers[r].active
    && forall name :: name in w.readers[r].current && name in start.bound ==>
         start.bound[name] < |start.cells| && w.readers[r].current[name] >= Reading(start, name)
  }

  ghost predicate AllRisen(start: World, w: World) {
    forall name :: name in start.bound ==> Risen(start, w, name)
  }

  lemma ReadKeepsSince(w: World, step: Step, w': World, r: nat, start: World)
    requires Next(w, step, w') && ReadSince(w, r, start) && !Turns(step, r) && AllRisen(start, w)
    ensures ReadSince(w', r, start)
  {
    hide OneCellEach, Advance;
    if step.ReadOne? && step.reader == r {
      assert w'.readers[r].current == w.readers[r].current[step.name := Reading(w, step.name)];
      assert step.name in start.bound ==> Risen(start, w, step.name);
    } else {
      assert r in w'.readers && w'.readers[r] == w.readers[r];
    }
  }

  lemma RunRises(ws: seq<World>, steps: seq<Step>, a: nat, b: nat)
    requires IsRun(ws, steps) && a <= b < |ws|
    ensures AllRisen(ws[a], ws[b])
  {
    hide IsRun, Risen;
    forall name | name in ws[a].bound ensures Risen(ws[a], ws[b], name) {
      CountersOnlyRise(ws, steps, a, b, name);
    }
  }

  lemma {:induction false} ReadingSince(ws: seq<World>, steps: seq<Step>, a: nat, b: nat, r: nat)
    requires IsRun(ws, steps) && a < b <= |steps| && b < |ws| && steps[a] == StartSnapshot(r)
    requires forall k :: a < k < b ==> !Turns(steps[k], r)
    ensures ReadSince(ws[b], r, ws[a])
    decreases b
  {
    hide IsRun, ReadSince, Turns, Next, AllRisen;
    StepOfRun(ws, steps, b - 1);
    if b == a + 1 {
      StartedSince(ws[a], ws[b], r);
    } else {
      ReadingSince(ws, steps, a, b - 1, r);
      RunRises(ws, steps, a, b - 1);
      ReadKeepsSince(ws[b - 1], steps[b - 1], ws[b], r, ws[a]);
    }
  }

  lemma StartedSince(w: World, w': World, r: nat)
    requires Next(w, StartSnapshot(r), w')
    ensures ReadSince(w', r, w)
  {
  }

  /**
   * A snapshot is recent: it holds every request counter there is, each with a value between what the
   * counter read when the snapshot began and what it reads when it ends.
   */
  lemma SnapshotIsRecent(ws: seq<World>, steps: seq<Step>, a: nat, b: nat, r: nat)
    requires IsRun(ws, steps) && a < b < |steps| && steps[a] == StartSnapshot(r) && steps[b] == EndSnapshot(r)
    requires forall k :: a < k < b ==> !Turns(steps[k], r)
    ensures r in ws[b + 1].readers
    ensures var snapshot := ws[b + 1].readers[r].last;
            && (forall name :: name in snapshot <==> name in ws[b].bound && name.Hits?)
            && (forall name :: name in ws[b].bound ==> ws[b].bound[name] < |ws[b].cells|)
            && (forall name :: name in ws[a].bound ==> ws[a].bound[name] < |ws[a].cells|)
            && (forall name :: name in snapshot ==> snapshot[name] <= Reading(ws[b], name))
            && (forall name :: name in snapshot && name in ws[a].bound ==> Reading(ws[a], name) <= snapshot[name])
  {
    ReadingSince(ws, steps, a, b, r);
    RunKeepsInv(ws, steps, a);
    RunKeepsInv(ws, steps, b);
    assert Next(ws[b], steps[b], ws[b + 1]);
    hide IsRun, NothingLost, ThreadsSound;
    assert ReaderSound(ws[b].bound, ws[b].cells, ws[b].readers[r]);
  }
}
