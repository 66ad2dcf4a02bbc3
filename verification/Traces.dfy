/** Whole runs of the pipeline: how long retries wait, how many agents are called, and in which order. */
module Traces {
  import opened BlockParser
  import opened WorkTree
  import opened Stages

  // ---------- One batch of retries ----------

  /** The results a batch adds: one agent's, each but the last failed, and all tries used up if that failed too. */
  ghost predicate IsBatch(before: seq<Result>, after: seq<Result>, agent: Agent, tries: nat) {
    && |before| < |after| <= |before| + tries && before == after[..|before|]
    && (forall i :: |before| <= i < |after| ==> after[i].agent == agent)
    && (forall i :: |before| <= i < |after| - 1 ==> !after[i].ok)
    && (!after[|after| - 1].ok ==> |after| == |before| + tries && after[|after| - 1].output == "")
  }

  lemma BatchAfterFailure(before: seq<Result>, failed: Result, after: seq<Result>, agent: Agent, tries: nat)
    requires failed.agent == agent && !failed.ok
    requires IsBatch(before + [failed], after, agent, tries)
    ensures IsBatch(before, after, agent, tries + 1)
  {
    assert after[|before|] == (before + [failed])[|before|];
    assert after[..|before|] == (before + [failed])[..|before|];
  }

  lemma OneCallIsBatch(env: Env, st: State, agent: Agent, attempt: nat)
    requires attempt < env.maxRetries
    requires Last(Called(env, st, agent, attempt)).ok || attempt + 1 == env.maxRetries
    ensures IsBatch(st.results, Called(env, st, agent, attempt).results, agent, env.maxRetries - attempt)
  {
  }

  lemma {:induction false} RetryIsBatch(env: Env, st: State, agent: Agent, attempt: nat)
    requires attempt < env.maxRetries
    ensures IsBatch(st.results, Retry(env, st, agent, attempt).results, agent, env.maxRetries - attempt)
    decreases env.maxRetries - attempt
  {
    hide IsBatch;
    var called := Called(env, st, agent, attempt);
    if !Last(called).ok && attempt + 1 < env.maxRetries {
      RetryIsBatch(env, called, agent, attempt + 1);
      var after := Retry(env, called, agent, attempt + 1).results;
      BatchAfterFailure(st.results, Last(called), after, agent, env.maxRetries - attempt - 1);
    } else {
      OneCallIsBatch(env, st, agent, attempt);
    }
  }

  /** A batch numbers its failed calls, and a completed one is not numbered. */
  lemma {:induction false} FailuresAreNumbered(env: Env, st: State, agent: Agent, attempt: nat, i: nat)
    requires attempt < env.maxRetries && |st.results| <= i < |Retry(env, st, agent, attempt).results|
    ensures var r := Retry(env, st, agent, attempt).results[i];
            r.retries == if r.ok then 0 else attempt + 1 + i - |st.results|
    decreases env.maxRetries - attempt
  {
    var called := Called(env, st, agent, attempt);
    if !Last(called).ok && attempt + 1 < env.maxRetries {
      if i == |st.results| {
        RetryIsBatch(env, called, agent, attempt + 1);
        assert called.results[i] == Retry(env, called, agent, attempt + 1).results[i];
      } else {
        FailuresAreNumbered(env, called, agent, attempt + 1, i);
      }
    }
  }

  // ---------- What results record ----------

  /** Every call's result is completed exactly if its agent answered, and then holds that answer. */
  ghost predicate Recorded(env: Env, rs: seq<Result>) {
    forall i :: 0 <= i < |rs| ==>
      match env.agents(i)
      case None => !rs[i].ok && rs[i].output == ""
      case Some(answer) => rs[i].ok && rs[i].output == answer
  }

  lemma CallIsRecorded(env: Env, st: State, agent: Agent, attempt: nat)
    requires Recorded(env, st.results)
    ensures var called := Called(env, st, agent, attempt); |called.results| > 0 && Recorded(env, called.results)
  {
    hide Pow2;
  }

  lemma {:induction false} RetryIsRecorded(env: Env, st: State, agent: Agent, attempt: nat)
    requires attempt < env.maxRetries && Recorded(env, st.results)
    ensures Recorded(env, Retry(env, st, agent, attempt).results)
    decreases env.maxRetries - attempt
  {
    hide Recorded, Called;
    CallIsRecorded(env, st, agent, attempt);
    var called := Called(env, st, agent, attempt);
    if !Last(called).ok && attempt + 1 < env.maxRetries { RetryIsRecorded(env, called, agent, attempt + 1); }
  }

  lemma {:induction false} CodeIsRecorded(env: Env, st: State, attempt: nat)
    requires attempt < env.maxRetries && Recorded(env, st.results)
    ensures Recorded(env, CodeGenLoop(env, st, attempt).0.results)
    decreases env.maxRetries - attempt
  {
    hide Writable, Raises, Overlay, Targets, Restored, Called, Recorded;
    var ran := Retry(env, CleanedUp(env, st), CodeGen, 0);
    RetryIsRecorded(env, CleanedUp(env, st), CodeGen, 0);
    if Last(ran).ok && !Raises(env, ran) && env.tests(ran.tests) == Failing && attempt + 1 < env.maxRetries {
      CodeIsRecorded(env, Wrote(env, ran), attempt + 1);
    }
  }

  lemma {:induction false} ReworkIsRecorded(env: Env, st: State, attempt: nat)
    requires attempt < env.maxRetries && Recorded(env, st.results)
    ensures Recorded(env, ReworkLoop(env, st, attempt).0.results)
    decreases env.maxRetries - attempt
  {
    hide Writable, Raises, Overlay, Called, Recorded;
    var ran := Retry(env, st, CodeGen, 0);
    RetryIsRecorded(env, st, CodeGen, 0);
    if !Raises(env, ran) && env.tests(ran.tests) == Failing && attempt + 1 < env.maxRetries {
      ReworkIsRecorded(env, Rewrote(env, ran), attempt + 1);
    }
  }

  lemma {:induction false} ReviewIsRecorded(env: Env, st: State, iteration: nat)
    requires iteration < env.maxRetries && Recorded(env, st.results)
    ensures Recorded(env, ReviewLoop(env, st, iteration).0.results)
    decreases env.maxRetries - iteration
  {
    hide Rejects, Called, ReworkLoop, Recorded;
    var ran := Retry(env, st, Reviewer, 0);
    RetryIsRecorded(env, st, Reviewer, 0);
    if Last(ran).ok && Rejects(Last(ran).output) {
      ReworkIsRecorded(env, ran, 0);
      var (reworked, rework) := ReworkLoop(env, ran, 0);
      if rework.Proceed? && iteration + 1 < env.maxRetries { ReviewIsRecorded(env, reworked, iteration + 1); }
    }
  }

  lemma ConcludeIsRecorded(env: Env, st: State)
    requires env.maxRetries > 0 && Recorded(env, st.results)
    ensures Recorded(env, Conclude(env, st).0.results)
  {
    hide Called, Writable, Raises, Overlay, Recorded;
    var ready := st.(tests := st.tests + 1);
    RetryIsRecorded(env, ready, Tester, 0);
    RetryIsRecorded(env, Retry(env, ready, Tester, 0), DocWriter, 0);
  }

  lemma ProduceIsRecorded(env: Env, st: State)
    requires env.maxRetries > 0 && Recorded(env, st.results)
    ensures Recorded(env, Produce(env, st).0.results)
  {
    hide Recorded, CodeGenLoop, ReviewLoop, Conclude;
    CodeIsRecorded(env, st, 0);
    var coded := CodeGenLoop(env, st, 0).0;
    ReviewIsRecorded(env, coded, 0);
    ConcludeIsRecorded(env, ReviewLoop(env, coded, 0).0);
  }

  lemma NothingRecorded(env: Env)
    ensures Recorded(env, [])
  {
  }

  /** The results of every run are exactly its agents' answers, in the order they were asked. */
  lemma RunIsRecorded(env: Env, tree: Tree)
    ensures Recorded(env, Run(env, tree).0.results)
  {
    hide Recorded, Produce, Retry;
    NothingRecorded(env);
    if env.maxRetries > 0 {
      RetryIsRecorded(env, Begin(tree), Architect, 0);
      ProduceIsRecorded(env, Retry(env, Begin(tree), Architect, 0));
    }
  }

  /** The failed calls of a batch that took st to st'. */
  function Failures(st: State, st': State): int
    requires |st'.results| > 0
  {
    |st'.results| - |st.results| - if Last(st').ok then 1 else 0
  }

  /** k waits that double, the first 2^a, come to 2^(a + k) - 2^a. */
  predicate Doubling(before: nat, after: nat, a: nat, k: int) {
    k >= 0 && after + Pow2(a) == before + Pow2(a + k)
  }

  lemma OneWaitMore(before: nat, after: nat, a: nat, k: int)
    requires Doubling(before + Pow2(a), after, a + 1, k)
    ensures Doubling(before, after, a, k + 1)
  {
    assert a + 1 + k == a + (k + 1);
  }

  lemma CallWaits(env: Env, st: State, agent: Agent, attempt: nat)
    ensures var called := Called(env, st, agent, attempt);
            && |called.results| == |st.results| + 1
            && called.waits == st.waits + if Last(called).ok then 0 else Pow2(attempt)
  {
    hide Pow2;
  }

  lemma {:induction false} BackoffFrom(env: Env, st: State, agent: Agent, attempt: nat)
    requires attempt < env.maxRetries
    ensures var st' := Retry(env, st, agent, attempt); Doubling(st.waits, st'.waits, attempt, Failures(st, st'))
    decreases env.maxRetries - attempt
  {
    hide Called;
    var called := Called(env, st, agent, attempt);
    CallWaits(env, st, agent, attempt);
    if !Last(called).ok && attempt + 1 < env.maxRetries {
      hide Doubling;
      BackoffFrom(env, called, agent, attempt + 1);
      var st' := Retry(env, called, agent, attempt + 1);
      OneWaitMore(st.waits, st'.waits, attempt, Failures(called, st'));
    }
  }

  /** A batch with k failures waits 2^k - 1 times the base wait in all. */
  lemma BackoffIsGeometric(env: Env, st: State, agent: Agent)
    requires env.maxRetries > 0
    ensures var st' := Retry(env, st, agent, 0);
            Failures(st, st') >= 0 && st'.waits - st.waits == Pow2(Failures(st, st')) - 1
  {
    hide Called, Failures;
    BackoffFrom(env, st, agent, 0);
  }

  // ---------- How many agents are called ----------

  /** n rounds of k. */
  function Rounds(n: nat, k: nat): nat {
    if n == 0 then 0 else Rounds(n - 1, k) + k
  }

  lemma {:induction false} RoundsIsProduct(n: nat, k: nat)
    ensures Rounds(n, k) == n * k
  {
    if n > 0 { RoundsIsProduct(n - 1, k); }
  }

  lemma RetryCalls(env: Env, st: State, agent: Agent)
    requires env.maxRetries > 0
    ensures |Retry(env, st, agent, 0).results| <= |st.results| + env.maxRetries
  {
    RetryIsBatch(env, st, agent, 0);
  }

  lemma {:induction false} CodeGenCalls(env: Env, st: State, attempt: nat)
    requires attempt < env.maxRetries
    ensures |CodeGenLoop(env, st, attempt).0.results| <= |st.results| + Rounds(env.maxRetries - attempt, env.maxRetries)
    decreases env.maxRetries - attempt
  {
    hide Writable, Raises, Overlay, Targets, Restored, Called;
    var ran := Retry(env, CleanedUp(env, st), CodeGen, 0);
    RetryCalls(env, CleanedUp(env, st), CodeGen);
    if Last(ran).ok && !Raises(env, ran) && env.tests(ran.tests) == Failing && attempt + 1 < env.maxRetries {
      CodeGenCalls(env, Wrote(env, ran), attempt + 1);
    }
  }

  lemma {:induction false} ReworkCalls(env: Env, st: State, attempt: nat)
    requires attempt < env.maxRetries
    ensures |ReworkLoop(env, st, attempt).0.results| <= |st.results| + Rounds(env.maxRetries - attempt, env.maxRetries)
    decreases env.maxRetries - attempt
  {
    hide Writable, Raises, Overlay, Called;
    var ran := Retry(env, st, CodeGen, 0);
    RetryCalls(env, st, CodeGen);
    if !Raises(env, ran) && env.tests(ran.tests) == Failing && attempt + 1 < env.maxRetries {
      ReworkCalls(env, Rewrote(env, ran), attempt + 1);
    }
  }

  /** The calls of one review and its rework. */
  function Round(r: nat): nat { r + Rounds(r, r) }

  lemma OneReviewCalls(env: Env, st: State)
    requires env.maxRetries > 0
    ensures var ran := Retry(env, st, Reviewer, 0);
            && |ran.results| <= |st.results| + Round(env.maxRetries)
            && |ReworkLoop(env, ran, 0).0.results| <= |st.results| + Round(env.maxRetries)
  {
    hide Called;
    RetryCalls(env, st, Reviewer);
    ReworkCalls(env, Retry(env, st, Reviewer, 0), 0);
  }

  lemma {:induction false} ReviewCalls(env: Env, st: State, iteration: nat)
    requires iteration < env.maxRetries
    ensures |ReviewLoop(env, st, iteration).0.results|
         <= |st.results| + Rounds(env.maxRetries - iteration, Round(env.maxRetries))
    decreases env.maxRetries - iteration
  {
    hide Rejects, Called, Round, ReworkLoop;
    OneReviewCalls(env, st);
    var reworked := ReworkLoop(env, Retry(env, st, Reviewer, 0), 0).0;
    if iteration + 1 < env.maxRetries {
      ReviewCalls(env, reworked, iteration + 1);
    }
  }

  lemma ConcludeCalls(env: Env, st: State)
    requires env.maxRetries > 0
    ensures |Conclude(env, st).0.results| <= |st.results| + 2 * env.maxRetries
  {
    hide Called, Writable, Raises, Overlay;
    var ready := st.(tests := st.tests + 1);
    RetryCalls(env, ready, Tester);
    RetryCalls(env, Retry(env, ready, Tester, 0), DocWriter);
  }

  lemma RunCallsInRounds(env: Env, tree: Tree)
    requires env.maxRetries > 0
    ensures var r := env.maxRetries; |Run(env, tree).0.results| <= 3 * r + Rounds(r, r) + Rounds(r, Round(r))
  {
    hide Called, Writable, Raises, Overlay, Rounds, Round, Conclude;
    var designed := Retry(env, Begin(tree), Architect, 0);
    RetryCalls(env, Begin(tree), Architect);
    CodeGenCalls(env, designed, 0);
    var coded := CodeGenLoop(env, designed, 0).0;
    ReviewCalls(env, coded, 0);
    ConcludeCalls(env, ReviewLoop(env, coded, 0).0);
  }

  /** Every run ends, after at most R^3 + 2R^2 + 3R agent calls for R = maxRetries. */
  lemma RunCalls(env: Env, tree: Tree)
    ensures var r := env.maxRetries; |Run(env, tree).0.results| <= r * r * r + 2 * (r * r) + 3 * r
  {
    var r := env.maxRetries;
    if r > 0 {
      RunCallsInRounds(env, tree);
      RoundsIsProduct(r, r);
      RoundsIsProduct(r, Round(r));
      hide Run, Rounds;
      assert r * (r + r * r) == r * r + r * r * r;
    } else {
      assert Run(env, tree).0.results == [];
    }
  }

  // ---------- The order agents are called in ----------

  /** A batch ends with its agent and leaves everything but results and waits alone. */
  lemma {:induction false} RetryOnlyCalls(env: Env, st: State, agent: Agent, attempt: nat)
    requires attempt < env.maxRetries
    ensures var st' := Retry(env, st, agent, attempt);
            Last(st').agent == agent && st'.tests == st.tests && st'.tree == st.tree && st'.touched == st.touched
    decreases env.maxRetries - attempt
  {
    hide Pow2;
    var called := Called(env, st, agent, attempt);
    if !Last(called).ok && attempt + 1 < env.maxRetries {
      RetryOnlyCalls(env, called, agent, attempt + 1);
    }
  }

  /** What is written depends on the last answer alone. */
  lemma SameAnswer(env: Env, st: State)
    requires |st.results| > 0
    ensures Wrote(env, st).results == st.results && Rewrote(env, st).results == st.results
    ensures Writable(env, Wrote(env, st)) == Writable(env, st)
    ensures Raises(env, Wrote(env, st)) == Raises(env, st) == Raises(env, Rewrote(env, st))
  {
    hide FindBlocks, Overlay, Targets, BeforeFault, CannotWrite;
  }

  /** A failed answer is empty, and so holds no blocks. */
  lemma FailedSaysNothing(env: Env, st: State, agent: Agent)
    requires env.maxRetries > 0
    ensures var last := Last(Retry(env, st, agent, 0)); !last.ok ==> last.output == ""
  {
    RetryIsBatch(env, st, agent, 0);
  }

  lemma NothingInNothing()
    ensures FindBlocks("") == []
  {
  }

  lemma {:induction false} CodeStageEndsInCode(env: Env, st: State, attempt: nat)
    requires attempt < env.maxRetries
    ensures var st' := CodeGenLoop(env, st, attempt).0; |st'.results| > 0 && Last(st').agent == CodeGen
    decreases env.maxRetries - attempt
  {
    hide Writable, Raises, Overlay, Targets, Restored, Called;
    var ran := Retry(env, CleanedUp(env, st), CodeGen, 0);
    RetryOnlyCalls(env, CleanedUp(env, st), CodeGen, 0);
    if Last(ran).ok && !Raises(env, ran) && env.tests(ran.tests) == Failing && attempt + 1 < env.maxRetries {
      CodeStageEndsInCode(env, Wrote(env, ran), attempt + 1);
    }
  }

  /**
   * Which agent may come right after which: architect+ codegen* (reviewer+ codegen*)* tester+ docwriter+,
   * where every agent is called again only after a failed call and left only after a completed one,
   * save the code generator in its loops, and a review leads to the code generator if it rejects.
   */
  predicate Follows(a: Result, b: Agent) {
    match a.agent
    case Architect => b == if a.ok then CodeGen else Architect
    case CodeGen => b == CodeGen || b == Reviewer || b == Tester
    case Reviewer => b == if !a.ok then Reviewer else if Rejects(a.output) then CodeGen else Tester
    case Tester => b == if a.ok then DocWriter else Tester
    case DocWriter => !a.ok && b == DocWriter
  }

  /** A trace of agent calls, or the part of one before a failure cut it short. */
  ghost predicate Orderly(rs: seq<Result>) {
    && (|rs| > 0 ==> rs[0].agent == Architect)
    && forall i :: 0 <= i < |rs| - 1 ==> Follows(rs[i], rs[i + 1].agent)
  }

  ghost predicate MayCall(rs: seq<Result>, agent: Agent) {
    if |rs| == 0 then agent == Architect else Follows(rs[|rs| - 1], agent)
  }

  lemma BatchStaysOrderly(before: seq<Result>, after: seq<Result>, agent: Agent, tries: nat)
    requires Orderly(before) && MayCall(before, agent) && IsBatch(before, after, agent, tries)
    ensures Orderly(after) && after[|after| - 1].agent == agent
  {
    forall i | 0 <= i < |after| - 1 ensures Follows(after[i], after[i + 1].agent) {
      if i < |before| { assert after[i] == before[i]; }
      if i + 1 < |before| { assert after[i + 1] == before[i + 1]; }
    }
    if |before| > 0 { assert after[0] == before[0]; }
  }

  lemma RetryStaysOrderly(env: Env, st: State, agent: Agent)
    requires env.maxRetries > 0 && Orderly(st.results) && MayCall(st.results, agent)
    ensures var st' := Retry(env, st, agent, 0); Orderly(st'.results) && Last(st').agent == agent
  {
    RetryIsBatch(env, st, agent, 0);
    hide IsBatch, Orderly, Called;
    BatchStaysOrderly(st.results, Retry(env, st, agent, 0).results, agent, env.maxRetries);
  }

  lemma {:induction false} CodeGenStaysOrderly(env: Env, st: State, attempt: nat)
    requires attempt < env.maxRetries && Orderly(st.results) && MayCall(st.results, CodeGen)
    ensures var st' := CodeGenLoop(env, st, attempt).0;
            Orderly(st'.results) && |st'.results| > 0 && Last(st').agent == CodeGen
    decreases env.maxRetries - attempt
  {
    hide Writable, Raises, Overlay, Targets, Restored, Called, Orderly;
    var ran := Retry(env, CleanedUp(env, st), CodeGen, 0);
    RetryStaysOrderly(env, CleanedUp(env, st), CodeGen);
    if Last(ran).ok && !Raises(env, ran) && env.tests(ran.tests) == Failing && attempt + 1 < env.maxRetries {
      CodeGenStaysOrderly(env, Wrote(env, ran), attempt + 1);
    }
  }

  lemma {:induction false} ReworkStaysOrderly(env: Env, st: State, attempt: nat)
    requires attempt < env.maxRetries && Orderly(st.results) && MayCall(st.results, CodeGen)
    ensures var st' := ReworkLoop(env, st, attempt).0;
            Orderly(st'.results) && |st'.results| > 0 && Last(st').agent == CodeGen
    decreases env.maxRetries - attempt
  {
    hide Writable, Raises, Overlay, Called, Orderly;
    var ran := Retry(env, st, CodeGen, 0);
    RetryStaysOrderly(env, st, CodeGen);
    if !Raises(env, ran) && env.tests(ran.tests) == Failing && attempt + 1 < env.maxRetries {
      ReworkStaysOrderly(env, Rewrote(env, ran), attempt + 1);
    }
  }

  lemma {:induction false} ReviewStaysOrderly(env: Env, st: State, iteration: nat)
    requires iteration < env.maxRetries && Orderly(st.results) && MayCall(st.results, Reviewer)
    ensures var (st', verdict) := ReviewLoop(env, st, iteration);
            Orderly(st'.results) && !verdict.NeverPassed? && (verdict.Proceed? ==> MayCall(st'.results, Tester))
    decreases env.maxRetries - iteration
  {
    hide Rejects, Called, Orderly, Writable, Raises, Overlay;
    var ran := Retry(env, st, Reviewer, 0);
    RetryStaysOrderly(env, st, Reviewer);
    if Last(ran).ok && Rejects(Last(ran).output) {
      ReworkStaysOrderly(env, ran, 0);
      if iteration + 1 < env.maxRetries {
        ReviewStaysOrderly(env, ReworkLoop(env, ran, 0).0, iteration + 1);
      }
    }
  }

  lemma ConcludeStaysOrderly(env: Env, st: State)
    requires env.maxRetries > 0 && Orderly(st.results) && MayCall(st.results, Tester)
    ensures Orderly(Conclude(env, st).0.results)
  {
    hide Called, Orderly, Writable, Raises, Overlay;
    var ready := st.(tests := st.tests + 1);
    RetryStaysOrderly(env, ready, Tester);
    var tested := Retry(env, ready, Tester, 0);
    if Last(tested).ok {
      RetryStaysOrderly(env, tested, DocWriter);
    }
  }

  lemma AssessStaysOrderly(env: Env, st: State)
    requires env.maxRetries > 0 && Orderly(st.results) && MayCall(st.results, Reviewer)
    ensures Orderly(Assess(env, st).0.results)
  {
    hide Orderly, MayCall, Conclude;
    ReviewStaysOrderly(env, st, 0);
    var (reviewed, review) := ReviewLoop(env, st, 0);
    if review.Proceed? {
      ConcludeStaysOrderly(env, reviewed);
    }
  }

  lemma ProduceStaysOrderly(env: Env, st: State)
    requires env.maxRetries > 0 && Orderly(st.results) && MayCall(st.results, CodeGen)
    ensures Orderly(Produce(env, st).0.results)
  {
    hide Orderly, MayCall, Assess;
    CodeGenStaysOrderly(env, st, 0);
    var (coded, coding) := CodeGenLoop(env, st, 0);
    if coding.Proceed? {
      MayCallNext(coded, Reviewer);
      AssessStaysOrderly(env, coded);
    }
  }

  /** Every run calls its agents in the pipeline's order, as far as it gets. */
  lemma RunIsOrderly(env: Env, tree: Tree)
    ensures Orderly(Run(env, tree).0.results)
  {
    assert Orderly([]);
    if env.maxRetries > 0 {
      hide Called, Orderly, MayCall, Produce;
      FirstIsArchitect();
      RetryStaysOrderly(env, Begin(tree), Architect);
      var designed := Retry(env, Begin(tree), Architect, 0);
      if Last(designed).ok {
        MayCallNext(designed, CodeGen);
        ProduceStaysOrderly(env, designed);
      }
    }
  }

  lemma FirstIsArchitect()
    ensures MayCall([], Architect)
  {
  }

  lemma MayCallNext(st: State, agent: Agent)
    requires |st.results| > 0 && Follows(Last(st), agent)
    ensures MayCall(st.results, agent)
  {
  }
}
