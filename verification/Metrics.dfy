/**
 * The metrics registry under concurrency: counters are found or created by a check under a read
 * lock repeated under the write lock, incremented outside any lock, and read one at a time by
 * snapshots that hold the read lock.
 */
module Metrics {
  import opened Sums

  /** One recorded request; its path is already normalised. */
  datatype Job = Job(verb: string, path: string, status: int, ms: nat)

  /** The counters: hits per method, path and status; milliseconds and count per method and path. */
  datatype Name =
    | Hits(verb: string, path: string, status: int)
    | TotalMs(verb: string, path: string)
    | Timed(verb: string, path: string)

  datatype Stage = Request | LatencySum | LatencyCount

  function NameOf(stage: Stage, job: Job): Name {
    match stage
    case Request => Hits(job.verb, job.path, job.status)
    case LatencySum => TotalMs(job.verb, job.path)
    case LatencyCount => Timed(job.verb, job.path)
  }

  function Amount(stage: Stage, job: Job): nat {
    if stage == LatencySum then job.ms else 1
  }

  /** Where a recording stands: before its unlocked check, between the checks, or holding a counter to add to. */
  datatype Thread =
    | Checking(job: Job, stage: Stage)
    | Missing(job: Job, stage: Stage)
    | Holding(job: Job, stage: Stage, cell: nat)

  datatype Added = Added(stage: Stage, job: Job)

  /** A reader's last complete snapshot, and the one it is taking: what it has read and what is left. */
  datatype Reader = Reader(last: map<Name, int>, current: map<Name, int>, left: set<Name>, active: bool) {
    function Started(names: set<Name>): Reader {
      Reader(last, map[], names, true)
    }

    function Read(name: Name, value: int): Reader {
      this.(current := current[name := value], left := left - {name})
    }

    function Finished(): Reader {
      Reader(current, map[], {}, false)
    }
  }

  const IDLE := Reader(map[], map[], {}, false)

  datatype World = World(
    bound: map<Name, nat>,
    cells: seq<int>,
    threads: map<nat, Thread>,
    readers: map<nat, Reader>,
    log: seq<Added>)

  const START := World(map[], [], map[], map[], [])

  datatype Step =
    | Begin(thread: nat, job: Job)
    | Check(thread: nat)
    | Recheck(thread: nat)
    | Add(thread: nat)
    | StartSnapshot(reader: nat)
    | ReadOne(reader: nat, name: Name)
    | EndSnapshot(reader: nat)

  ghost predicate ReadLocked(w: World) {
    exists r :: r in w.readers && w.readers[r].active
  }

  /** The next stage of a recording, or its end. */
  function Advance(threads: map<nat, Thread>, t: nat, job: Job, stage: Stage): map<nat, Thread> {
    match stage
    case Request => threads[t := Checking(job, LatencySum)]
    case LatencySum => threads[t := Checking(job, LatencyCount)]
    case LatencyCount => threads - {t}
  }

  function HitsOf(bound: map<Name, nat>): set<Name> {
    set name | name in bound && name.Hits?
  }

  ghost predicate Next(w: World, step: Step, w': World) {
    match step
    case Begin(t, job) =>
      t !in w.threads && w' == w.(threads := w.threads[t := Checking(job, Request)])
    case Check(t) =>
      && t in w.threads && w.threads[t].Checking?
      && var Checking(job, stage) := w.threads[t];
         var name := NameOf(stage, job);
         var next := if name in w.bound then Holding(job, stage, w.bound[name]) else Missing(job, stage);
         w' == w.(threads := w.threads[t := next])
    case Recheck(t) =>
      && t in w.threads && w.threads[t].Missing? && !ReadLocked(w)
      && var Missing(job, stage) := w.threads[t];
         var name := NameOf(stage, job);
         if name in w.bound then w' == w.(threads := w.threads[t := Holding(job, stage, w.bound[name])])
         else w' == w.(bound := w.bound[name := |w.cells|], cells := w.cells + [0],
                       threads := w.threads[t := Holding(job, stage, |w.cells|)])
    case Add(t) =>
      && t in w.threads && w.threads[t].Holding?
      && var Holding(job, stage, cell) := w.threads[t];
         cell < |w.cells|
         && w' == w.(cells := w.cells[cell := w.cells[cell] + Amount(stage, job)],
                     threads := Advance(w.threads, t, job, stage), log := w.log + [Added(stage, job)])
    case StartSnapshot(r) =>
      && (r in w.readers ==> !w.readers[r].active)
      && var reader := if r in w.readers then w.readers[r] else IDLE;
         w' == w.(readers := w.readers[r := reader.Started(HitsOf(w.bound))])
    case ReadOne(r, name) =>
      && r in w.readers && w.readers[r].active && name in w.readers[r].left
      && name in w.bound && w.bound[name] < |w.cells|
      && w' == w.(readers := w.readers[r := w.readers[r].Read(name, w.cells[w.bound[name]])])
    case EndSnapshot(r) =>
      && r in w.readers && w.readers[r].active && w.readers[r].left == {}
      && w' == w.(readers := w.readers[r := w.readers[r].Finished()])
  }

  /** What the completed adds to one counter come to. */
  function Tally(log: seq<Added>, name: Name): nat {
    if |log| == 0 then 0
    else
      var a := log[|log| - 1];
      Tally(log[..|log| - 1], name) + if NameOf(a.stage, a.job) == name then Amount(a.stage, a.job) else 0
  }

  /** Every name has one counter of its own. */
  ghost predicate OneCellEach(bound: map<Name, nat>, cells: seq<int>) {
    && (forall n :: n in bound ==> bound[n] < |cells|)
    && (forall n, m :: n in bound && m in bound && n != m ==> bound[n] != bound[m])
  }

  /** No add is lost: each counter holds the sum of its completed adds. */
  ghost predicate NothingLost(bound: map<Name, nat>, cells: seq<int>, log: seq<Added>)
    requires OneCellEach(bound, cells)
  {
    forall n :: if n in bound then cells[bound[n]] == Tally(log, n) else Tally(log, n) == 0
  }

  ghost predicate HoldsItsCounter(bound: map<Name, nat>, thread: Thread) {
    thread.Holding? ==>
      var name := NameOf(thread.stage, thread.job);
      name in bound && bound[name] == thread.cell
  }

  /** The last snapshot is below the counters, and what has been read of the next lies between the two. */
  ghost predicate ReaderSound(bound: map<Name, nat>, cells: seq<int>, r: Reader)
    requires OneCellEach(bound, cells)
  {
    && r.last.Keys <= HitsOf(bound) && r.current.Keys <= HitsOf(bound)
    && (r.active ==> r.current.Keys + r.left == HitsOf(bound))
    && (forall n :: n in r.last ==> 0 <= r.last[n] <= cells[bound[n]])
    && (forall n :: n in r.current ==> 0 <= Get(r.last, n) <= r.current[n] <= cells[bound[n]])
  }

  ghost predicate ThreadsSound(bound: map<Name, nat>, threads: map<nat, Thread>) {
    forall t :: t in threads ==> HoldsItsCounter(bound, threads[t])
  }

  ghost predicate ReadersSound(bound: map<Name, nat>, cells: seq<int>, readers: map<nat, Reader>)
    requires OneCellEach(bound, cells)
  {
    forall r :: r in readers ==> ReaderSound(bound, cells, readers[r])
  }

  ghost predicate Inv(w: World) {
    && OneCellEach(w.bound, w.cells) && NothingLost(w.bound, w.cells, w.log)
    && ThreadsSound(w.bound, w.threads) && ReadersSound(w.bound, w.cells, w.readers)
  }

  /** One add to a name's counter keeps the books, and only raises what readers see. */
  lemma AddKeepsBooks(bound: map<Name, nat>, cells: seq<int>, log: seq<Added>, readers: map<nat, Reader>, a: Added)
    requires OneCellEach(bound, cells) && NothingLost(bound, cells, log) && ReadersSound(bound, cells, readers)
    requires NameOf(a.stage, a.job) in bound
    ensures var cell := bound[NameOf(a.stage, a.job)];
            var cells' := cells[cell := cells[cell] + Amount(a.stage, a.job)];
            && OneCellEach(bound, cells') && NothingLost(bound, cells', log + [a])
            && ReadersSound(bound, cells', readers)
  {
    assert (log + [a])[..|log|] == log;
    var cell := bound[NameOf(a.stage, a.job)];
    var cells' := cells[cell := cells[cell] + Amount(a.stage, a.job)];
    forall n ensures if n in bound then cells'[bound[n]] == Tally(log + [a], n) else Tally(log + [a], n) == 0 {
      assert if n in bound then cells[bound[n]] == Tally(log, n) else Tally(log, n) == 0;
    }
    forall r | r in readers ensures ReaderSound(bound, cells', readers[r]) {
      assert ReaderSound(bound, cells, readers[r]);
    }
  }

  /** A new cell at the end leaves the names and the cells there are. */
  lemma InsertKeepsCells(bound: map<Name, nat>, cells: seq<int>, name: Name)
    requires OneCellEach(bound, cells) && name !in bound
    ensures OneCellEach(bound[name := |cells|], cells + [0])
    ensures HitsOf(bound) <= HitsOf(bound[name := |cells|])
    ensures forall n :: n in HitsOf(bound) ==> (cells + [0])[bound[name := |cells|][n]] == cells[bound[n]]
  {
  }

  lemma InsertKeepsReader(bound: map<Name, nat>, cells: seq<int>, name: Name, r: Reader)
    requires OneCellEach(bound, cells) && ReaderSound(bound, cells, r) && name !in bound && !r.active
    ensures OneCellEach(bound[name := |cells|], cells + [0])
    ensures ReaderSound(bound[name := |cells|], cells + [0], r)
  {
    InsertKeepsCells(bound, cells, name);
    ghost var bound', cells' := bound[name := |cells|], cells + [0];
    hide OneCellEach, HitsOf;
    forall n | n in r.last ensures 0 <= r.last[n] <= cells'[bound'[n]] {
      assert n in HitsOf(bound);
    }
    forall n | n in r.current ensures 0 <= Get(r.last, n) <= r.current[n] <= cells'[bound'[n]] {
      assert n in HitsOf(bound);
    }
  }

  lemma InsertKeepsCounts(bound: map<Name, nat>, cells: seq<int>, log: seq<Added>, name: Name)
    requires OneCellEach(bound, cells) && NothingLost(bound, cells, log) && name !in bound
    ensures OneCellEach(bound[name := |cells|], cells + [0])
    ensures NothingLost(bound[name := |cells|], cells + [0], log)
  {
  }

  /** A new counter starts empty, under a name nothing was added to; no reader is under way. */
  lemma InsertKeepsBooks(w: World, name: Name)
    requires Inv(w) && name !in w.bound && !ReadLocked(w)
    ensures var bound, cells := w.bound[name := |w.cells|], w.cells + [0];
            && OneCellEach(bound, cells) && NothingLost(bound, cells, w.log)
            && ThreadsSound(bound, w.threads) && ReadersSound(bound, cells, w.readers)
  {
    InsertKeepsCounts(w.bound, w.cells, w.log, name);
    hide OneCellEach, NothingLost, ReaderSound;
    var bound, cells := w.bound[name := |w.cells|], w.cells + [0];
    forall t | t in w.threads ensures HoldsItsCounter(bound, w.threads[t]) {
      assert HoldsItsCounter(w.bound, w.threads[t]);
    }
    forall r | r in w.readers ensures ReaderSound(bound, cells, w.readers[r]) {
      InsertKeepsReader(w.bound, w.cells, name, w.readers[r]);
    }
  }

  lemma AdvanceKeepsThreads(bound: map<Name, nat>, threads: map<nat, Thread>, t: nat, job: Job, stage: Stage)
    requires ThreadsSound(bound, threads)
    ensures ThreadsSound(bound, Advance(threads, t, job, stage))
  {
  }

  lemma ReadKeepsSound(bound: map<Name, nat>, cells: seq<int>, r: Reader, name: Name)
    requires OneCellEach(bound, cells) && ReaderSound(bound, cells, r)
    requires r.active && name in r.left && name in bound && 0 <= cells[bound[name]]
    ensures ReaderSound(bound, cells, r.Read(name, cells[bound[name]]))
  {
    var next := r.Read(name, cells[bound[name]]);
    assert next.current.Keys + next.left == r.current.Keys + r.left;
    forall n | n in next.current ensures 0 <= Get(next.last, n) <= next.current[n] <= cells[bound[n]] {
      assert n != name ==> n in r.current;
    }
  }

  lemma StartKeepsSound(bound: map<Name, nat>, cells: seq<int>, r: Reader)
    requires OneCellEach(bound, cells) && ReaderSound(bound, cells, r)
    ensures ReaderSound(bound, cells, r.Started(HitsOf(bound)))
  {
  }

  lemma FinishKeepsSound(bound: map<Name, nat>, cells: seq<int>, r: Reader)
    requires OneCellEach(bound, cells) && ReaderSound(bound, cells, r)
    ensures ReaderSound(bound, cells, r.Finished())
  {
  }

  lemma CounterNotNegative(w: World, name: Name)
    requires Inv(w) && name in w.bound
    ensures w.bound[name] < |w.cells| && 0 <= w.cells[w.bound[name]]
  {
    hide Tally, ThreadsSound, ReadersSound;
    assert w.cells[w.bound[name]] == Tally(w.log, name);
  }

  lemma ReaderStepKeepsInv(w: World, step: Step, w': World)
    requires Inv(w) && Next(w, step, w')
    requires step.StartSnapshot? || step.ReadOne? || step.EndSnapshot?
    ensures Inv(w')
  {
    hide NothingLost, ThreadsSound, Tally, OneCellEach, ReaderSound;
    var r := step.reader;
    match step
    case StartSnapshot(_) =>
      if r !in w.readers { IdleIsSound(w.bound, w.cells); }
      StartKeepsSound(w.bound, w.cells, if r in w.readers then w.readers[r] else IDLE);
    case ReadOne(_, name) =>
      CounterNotNegative(w, name);
      ReadKeepsSound(w.bound, w.cells, w.readers[r], name);
    case EndSnapshot(_) =>
      FinishKeepsSound(w.bound, w.cells, w.readers[r]);
  }

  lemma IdleIsSound(bound: map<Name, nat>, cells: seq<int>)
    requires OneCellEach(bound, cells)
    ensures ReaderSound(bound, cells, IDLE)
  {
  }

  lemma StepKeepsInv(w: World, step: Step, w': World)
    requires Inv(w) && Next(w, step, w')
    ensures Inv(w')
  {
    hide OneCellEach, NothingLost, ReadersSound, ReadLocked, HitsOf;
    match step
    case Begin(t, job) =>
    case Check(t) =>
    case Recheck(t) =>
      var name := NameOf(w.threads[t].stage, w.threads[t].job);
      if name !in w.bound { InsertKeepsBooks(w, name); }
    case Add(t) =>
      var Holding(job, stage, cell) := w.threads[t];
      assert HoldsItsCounter(w.bound, w.threads[t]);
      AddKeepsBooks(w.bound, w.cells, w.log, w.readers, Added(stage, job));
      AdvanceKeepsThreads(w.bound, w.threads, t, job, stage);
    case _ =>
      ReaderStepKeepsInv(w, step, w');
  }

  // ---------- Runs ----------

  ghost predicate IsRun(ws: seq<World>, steps: seq<Step>) {
    && |ws| == |steps| + 1 && ws[0] == START
    && forall i :: 0 <= i < |steps| ==> Next(ws[i], steps[i], ws[i + 1])
  }

  lemma {:induction false} RunKeepsInv(ws: seq<World>, steps: seq<Step>, n: nat)
    requires IsRun(ws, steps) && n < |ws|
    ensures Inv(ws[n])
  {
    if n > 0 {
      RunKeepsInv(ws, steps, n - 1);
      StepKeepsInv(ws[n - 1], steps[n - 1], ws[n]);
    }
  }

  /** No lost counts: in every interleaving each counter holds the sum of the adds completed under its name. */
  lemma NoLostCounts(ws: seq<World>, steps: seq<Step>, n: nat, name: Name)
    requires IsRun(ws, steps) && n < |ws|
    ensures name in ws[n].bound ==>
      ws[n].bound[name] < |ws[n].cells| && ws[n].cells[ws[n].bound[name]] == Tally(ws[n].log, name)
    ensures name !in ws[n].bound ==> Tally(ws[n].log, name) == 0
  {
    RunKeepsInv(ws, steps, n);
    hide IsRun;
    var w := ws[n];
    assert if name in w.bound then w.cells[w.bound[name]] == Tally(w.log, name) else Tally(w.log, name) == 0;
  }

  /** A name is bound to one counter for ever, and no two names to the same one. */
  lemma {:induction false} BoundForEver(ws: seq<World>, steps: seq<Step>, i: nat, j: nat, name: Name)
    requires IsRun(ws, steps) && i <= j < |ws|
    requires name in ws[i].bound
    ensures name in ws[j].bound && ws[j].bound[name] == ws[i].bound[name]
    ensures forall other :: other in ws[j].bound && other != name ==> ws[j].bound[other] != ws[j].bound[name]
    decreases j
  {
    RunKeepsInv(ws, steps, j);
    if i < j {
      BoundForEver(ws, steps, i, j - 1, name);
      StepKeepsBindings(ws[j - 1], steps[j - 1], ws[j], name);
    }
  }

  lemma StepKeepsBindings(w: World, step: Step, w': World, name: Name)
    requires Next(w, step, w') && name in w.bound
    ensures name in w'.bound && w'.bound[name] == w.bound[name]
  {
  }

  // ---------- Hits against timings ----------

  /** The recordings of one method and path that have counted a hit but not yet their latency. */
  function Between(threads: map<nat, Thread>, verb: string, path: string): set<nat> {
    set t | t in threads && IsBetween(threads[t], verb, path)
  }

  predicate IsBetween(thread: Thread, verb: string, path: string) {
    thread.job.verb == verb && thread.job.path == path && thread.stage != Request
  }

  lemma BetweenPut(threads: map<nat, Thread>, t: nat, thread: Thread, verb: string, path: string)
    ensures |Between(threads[t := thread], verb, path)|
         == |Between(threads, verb, path)|
          - (if t in threads && IsBetween(threads[t], verb, path) then 1 else 0)
          + (if IsBetween(thread, verb, path) then 1 else 0)
  {
    hide IsBetween;
    var before, after := Between(threads, verb, path), Between(threads[t := thread], verb, path);
    if IsBetween(thread, verb, path) {
      assert after == before + {t};
    } else {
      assert after == before - {t};
    }
    assert t in before <==> t in threads && IsBetween(threads[t], verb, path);
  }

  lemma BetweenDrop(threads: map<nat, Thread>, t: nat, verb: string, path: string)
    requires t in threads && IsBetween(threads[t], verb, path)
    ensures |Between(threads - {t}, verb, path)| == |Between(threads, verb, path)| - 1
  {
    assert Between(threads - {t}, verb, path) == Between(threads, verb, path) - {t};
  }

  /** How many adds of one stage have completed for a method and path. */
  function Completed(log: seq<Added>, stage: Stage, verb: string, path: string): nat {
    if |log| == 0 then 0
    else
      var a := log[|log| - 1];
      Completed(log[..|log| - 1], stage, verb, path)
      + if a.stage == stage && a.job.verb == verb && a.job.path == path then 1 else 0
  }

  ghost predicate InFlight(w: World, verb: string, path: string) {
    Completed(w.log, Request, verb, path)
        == Completed(w.log, LatencyCount, verb, path) + |Between(w.threads, verb, path)|
  }

  lemma AddKeepsInFlight(w: World, t: nat, w': World, verb: string, path: string)
    requires InFlight(w, verb, path) && Next(w, Add(t), w')
    ensures InFlight(w', verb, path)
  {
    var Holding(job, stage, cell) := w.threads[t];
    assert w'.log == w.log + [Added(stage, job)] && w'.log[..|w.log|] == w.log;
    hide Between;
    if stage != LatencyCount {
      BetweenPut(w.threads, t, w'.threads[t], verb, path);
    } else if IsBetween(w.threads[t], verb, path) {
      BetweenDrop(w.threads, t, verb, path);
    } else {
      BetweenIgnores(w.threads, t, verb, path);
    }
  }

  lemma StepKeepsInFlight(w: World, step: Step, w': World, verb: string, path: string)
    requires InFlight(w, verb, path) && Next(w, step, w')
    ensures InFlight(w', verb, path)
  {
    match step
    case Add(t) => AddKeepsInFlight(w, t, w', verb, path);
    case Begin(t, _) => BetweenPut(w.threads, t, w'.threads[t], verb, path);
    case Check(t) => BetweenPut(w.threads, t, w'.threads[t], verb, path);
    case Recheck(t) => BetweenPut(w.threads, t, w'.threads[t], verb, path);
    case _ =>
  }

  lemma BetweenIgnores(threads: map<nat, Thread>, t: nat, verb: string, path: string)
    requires t in threads && !IsBetween(threads[t], verb, path)
    ensures Between(threads - {t}, verb, path) == Between(threads, verb, path)
  {
  }

  lemma {:induction false} RunKeepsInFlight(ws: seq<World>, steps: seq<Step>, n: nat, verb: string, path: string)
    requires IsRun(ws, steps) && n < |ws|
    ensures InFlight(ws[n], verb, path)
  {
    if n > 0 {
      RunKeepsInFlight(ws, steps, n - 1, verb, path);
      hide InFlight;
      StepKeepsInFlight(ws[n - 1], steps[n - 1], ws[n], verb, path);
    } else {
      assert Between(ws[0].threads, verb, path) == {};
    }
  }

  function Tallies(log: seq<Added>, names: set<Name>): map<Name, int> {
    map n | n in names :: Tally(log, n)
  }

  /** The adds to any of some names, counted once each whatever their name. */
  function TallyAny(log: seq<Added>, names: set<Name>): nat {
    if |log| == 0 then 0
    else
      var a := log[|log| - 1];
      TallyAny(log[..|log| - 1], names) + if NameOf(a.stage, a.job) in names then Amount(a.stage, a.job) else 0
  }

  lemma {:induction false} TallySum(log: seq<Added>, names: set<Name>)
    ensures Sum(Tallies(log, names)) == TallyAny(log, names)
    decreases |log|
  {
    if |log| == 0 {
      AllZero(Tallies(log, names));
    } else {
      var init, a := log[..|log| - 1], log[|log| - 1];
      TallySum(init, names);
      var name := NameOf(a.stage, a.job);
      if name in names {
        SumPut(Tallies(init, names), name, Tally(log, name));
        assert Tallies(log, names) == Tallies(init, names)[name := Tally(log, name)];
      } else {
        assert Tallies(log, names) == Tallies(init, names);
      }
    }
  }

  lemma {:induction false} TimedIsCompleted(log: seq<Added>, verb: string, path: string)
    ensures Tally(log, Timed(verb, path)) == Completed(log, LatencyCount, verb, path)
  {
    if |log| > 0 { TimedIsCompleted(log[..|log| - 1], verb, path); }
  }

  lemma {:induction false} LoggedIsTallied(log: seq<Added>, i: nat)
    requires i < |log| && log[i].stage == Request
    ensures Tally(log, NameOf(Request, log[i].job)) > 0
  {
    if i < |log| - 1 { LoggedIsTallied(log[..|log| - 1], i); }
  }

  /** If every hit of a method and path is under one of these names, and nothing else is, they count its hits. */
  lemma {:induction false} HitsAreCompleted(log: seq<Added>, names: set<Name>, verb: string, path: string)
    requires forall n :: n in names ==> n.Hits? && n.verb == verb && n.path == path
    requires forall i :: 0 <= i < |log| && log[i].stage == Request && log[i].job.verb == verb && log[i].job.path == path
               ==> NameOf(Request, log[i].job) in names
    ensures TallyAny(log, names) == Completed(log, Request, verb, path)
    decreases |log|
  {
    if |log| > 0 {
      var init := log[..|log| - 1];
      assert forall i :: 0 <= i < |init| ==> init[i] == log[i];
      HitsAreCompleted(init, names, verb, path);
    }
  }

  /** The hit counters of a method and path, one per status seen, with what they hold. */
  function HitCounters(w: World, verb: string, path: string): map<Name, int>
    requires OneCellEach(w.bound, w.cells)
  {
    map n | n in w.bound && n.Hits? && n.verb == verb && n.path == path :: w.cells[w.bound[n]]
  }

  function TimedCount(w: World, verb: string, path: string): int
    requires OneCellEach(w.bound, w.cells)
  {
    var name := Timed(verb, path);
    if name in w.bound then w.cells[w.bound[name]] else 0
  }

  lemma HitCountersSum(w: World, verb: string, path: string)
    requires Inv(w)
    ensures Sum(HitCounters(w, verb, path)) == Completed(w.log, Request, verb, path)
  {
    hide ReadersSound, ThreadsSound;
    var counters := HitCounters(w, verb, path);
    var names := counters.Keys;
    assert counters == Tallies(w.log, names);
    TallySum(w.log, names);
    forall i | 0 <= i < |w.log| && w.log[i].stage == Request && w.log[i].job.verb == verb && w.log[i].job.path == path
      ensures NameOf(Request, w.log[i].job) in names
    {
      LoggedIsTallied(w.log, i);
    }
    HitsAreCompleted(w.log, names, verb, path);
  }

  /**
   * In every interleaving the hits of a method and path, summed over statuses, exceed its timing
   * count by exactly the recordings that stand between the two; with none under way they are equal.
   */
  lemma HitsAreTimedPlusInFlight(ws: seq<World>, steps: seq<Step>, n: nat, verb: string, path: string)
    requires IsRun(ws, steps) && n < |ws|
    ensures Inv(ws[n])
    ensures Sum(HitCounters(ws[n], verb, path)) == TimedCount(ws[n], verb, path) + |Between(ws[n].threads, verb, path)|
    ensures ws[n].threads == map[] ==> Sum(HitCounters(ws[n], verb, path)) == TimedCount(ws[n], verb, path)
  {
    RunKeepsInv(ws, steps, n);
    RunKeepsInFlight(ws, steps, n, verb, path);
    NoLostCounts(ws, steps, n, Timed(verb, path));
    TimedIsCompleted(ws[n].log, verb, path);
    hide IsRun, Tally, Completed;
    HitCountersSum(ws[n], verb, path);
    if ws[n].threads == map[] { assert Between(ws[n].threads, verb, path) == {}; }
  }

  // ---------- Torn snapshots ----------

  /**
   * Snapshots read one counter at a time while others add are still ordered: each one a reader
   * completes has every counter of its previous one, at least as high.
   */
  lemma TornSnapshotsGrow(ws: seq<World>, steps: seq<Step>, n: nat, reader: nat)
    requires IsRun(ws, steps) && n < |steps| && steps[n] == EndSnapshot(reader)
    ensures n + 1 < |ws| && reader in ws[n].readers && reader in ws[n + 1].readers
    ensures Below(ws[n].readers[reader].last, ws[n + 1].readers[reader].last)
  {
    RunKeepsInv(ws, steps, n);
    assert Next(ws[n], steps[n], ws[n + 1]);
    hide IsRun, NothingLost, ThreadsSound, OneCellEach;
    assert ReaderSound(ws[n].bound, ws[n].cells, ws[n].readers[reader]);
  }
}
