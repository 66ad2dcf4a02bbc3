/** What the final message of a run does not depend on: the last reviews, and the tests after them. */
module Unheeded {
  import opened BlockParser
  import opened Outcomes
  import opened Stages
  import opened Traces
  import opened WorkTree
  import opened Wrappers

  // ---------- Reviews and later tests ----------

  /** Agents that always answer, files that can be written, and tests that do not fail the first time. */
  ghost predicate Answering(env: Env) {
    && env.maxRetries > 0 && env.tests(0) != Failing
    && forall n :: env.agents(n).Some? && env.faults(n).None?
  }

  lemma AnsweredAtOnce(env: Env, st: State, agent: Agent)
    requires Answering(env)
    ensures var st' := Retry(env, st, agent, 0); Last(st').ok && !Raises(env, st') && st'.tests == st.tests
  {
    hide FindBlocks;
  }

  lemma {:induction false} ReworkAnswers(env: Env, st: State, attempt: nat)
    requires Answering(env) && attempt < env.maxRetries
    ensures ReworkLoop(env, st, attempt).1.Proceed?
    decreases env.maxRetries - attempt
  {
    hide Answering, Writable, Raises, Overlay, Called;
    var ran := Retry(env, st, CodeGen, 0);
    AnsweredAtOnce(env, st, CodeGen);
    if env.tests(ran.tests) == Failing && attempt + 1 < env.maxRetries {
      ReworkAnswers(env, Rewrote(env, ran), attempt + 1);
    }
  }

  lemma {:induction false} ReviewAnswers(env: Env, st: State, iteration: nat)
    requires Answering(env) && iteration < env.maxRetries
    ensures ReviewLoop(env, st, iteration).1.Proceed?
    decreases env.maxRetries - iteration
  {
    hide Answering, Rejects, Called, ReworkLoop, Raises;
    var ran := Retry(env, st, Reviewer, 0);
    AnsweredAtOnce(env, st, Reviewer);
    if Rejects(Last(ran).output) {
      ReworkAnswers(env, ran, 0);
      if iteration + 1 < env.maxRetries {
        ReviewAnswers(env, ReworkLoop(env, ran, 0).0, iteration + 1);
      }
    }
  }

  lemma ConcludeAnswers(env: Env, st: State)
    requires env.maxRetries > 0 && Answering(env)
    ensures Conclude(env, st).1.Success?
  {
    hide Answering, Called, Writable, Raises, Overlay;
    var ready := st.(tests := st.tests + 1);
    AnsweredAtOnce(env, ready, Tester);
    AnsweredAtOnce(env, Retry(env, ready, Tester, 0), DocWriter);
  }

  lemma FirstAttemptProceeds(env: Env, st: State)
    requires Answering(env) && st.tests == 0
    ensures CodeGenLoop(env, st, 0).1.Proceed?
  {
    hide Called, Writable, Raises, Overlay, Targets, Restored;
    AnsweredAtOnce(env, CleanedUp(env, st), CodeGen);
  }

  /**
   * Once the agents answer, the files can be written and the code stage's first test does not fail,
   * nothing the reviewer says and no later test can keep a run from ending in success.
   */
  lemma AnsweringMeansSuccess(env: Env, tree: Tree)
    requires Answering(env)
    ensures Run(env, tree).1.Success?
  {
    hide Called, Conclude, CodeGenLoop, ReviewLoop, Raises;
    AnsweredAtOnce(env, Begin(tree), Architect);
    FirstAttemptProceeds(env, Designed(env, tree));
    ReviewAnswers(env, Coded(env, tree).0, 0);
    ConcludeAnswers(env, Reviewed(env, tree).0);
    EndsBeforeTester(env, tree);
  }

  /** Agents that answer with a rejection every time, and tests that pass once and never again. */
  function Refusing(maxRetries: nat, index: Tree): Env {
    Env((n: nat) => Some(REJECT), (n: nat) => if n == 0 then Passed else Failing, (n: nat) => None, index, maxRetries)
  }

  /** For any number of retries a run can end in success although every review rejected and all later tests failed. */
  lemma SuccessWithoutApproval(maxRetries: nat, tree: Tree)
    requires maxRetries > 0
    ensures var env := Refusing(maxRetries, tree); var (st, message) := Run(env, tree);
            && message.Success? && Completed(st.results, Reviewer)
            && (forall i :: 0 <= i < |st.results| ==> Rejects(st.results[i].output))
            && (forall n :: n > 0 ==> env.tests(n) == Failing)
  {
    hide Run, Completed;
    var env := Refusing(maxRetries, tree);
    AnsweringMeansSuccess(env, tree);
    SuccessExactlyWhenTested(env, tree);
    hide Refusing;
    RejectIsRejected();
    RunIsRecorded(env, tree);
    AllRejections(env, Run(env, tree).0.results);
  }

  lemma AllRejections(env: Env, rs: seq<Result>)
    requires Recorded(env, rs) && Rejects(REJECT) && forall n :: env.agents(n) == Some(REJECT)
    ensures forall i :: 0 <= i < |rs| ==> Rejects(rs[i].output)
  {
    hide Rejects;
    forall i | 0 <= i < |rs| ensures Rejects(rs[i].output) {
      assert env.agents(i) == Some(REJECT);
    }
  }

  // ---------- The tester's own test run ----------

  /**
   * Two worlds that agree on the first `results` answers of the agents and writes of files, and the
   * first `tests` tests.
   */
  ghost predicate AlikeUntil(env: Env, other: Env, results: nat, tests: nat) {
    && other.index == env.index && other.maxRetries == env.maxRetries
    && (forall i :: 0 <= i < results ==> other.agents(i) == env.agents(i) && other.faults(i) == env.faults(i))
    && forall j :: 0 <= j < tests ==> other.tests(j) == env.tests(j)
  }

  ghost predicate Within(st: State, results: nat, tests: nat) {
    |st.results| <= results && st.tests <= tests
  }

  lemma {:induction false} SameBatch(env: Env, other: Env, st: State, agent: Agent, attempt: nat, results: nat,
                                     tests: nat)
    requires attempt < env.maxRetries && AlikeUntil(env, other, results, tests)
    requires |Retry(env, st, agent, attempt).results| <= results
    ensures Retry(other, st, agent, attempt) == Retry(env, st, agent, attempt)
    decreases env.maxRetries - attempt
  {
    var called := Called(env, st, agent, attempt);
    assert |st.results| < results;
    if !Last(called).ok && attempt + 1 < env.maxRetries {
      SameBatch(env, other, called, agent, attempt + 1, results, tests);
    }
  }

  lemma SameWrites(env: Env, other: Env, st: State, results: nat, tests: nat)
    requires 0 < |st.results| <= results && AlikeUntil(env, other, results, tests)
    ensures Raises(other, st) == Raises(env, st)
    ensures Wrote(other, st) == Wrote(env, st) && Rewrote(other, st) == Rewrote(env, st)
  {
    hide FindBlocks, Overlay, Targets, BeforeFault, CannotWrite;
  }

  lemma SameCleanUp(env: Env, other: Env, st: State, results: nat, tests: nat)
    requires AlikeUntil(env, other, results, tests)
    ensures CleanedUp(other, st) == CleanedUp(env, st)
  {
    hide Restored;
  }

  /** Results and tests are only ever added. */
  ghost predicate Grows(before: State, after: State) {
    |before.results| <= |after.results| && before.tests <= after.tests
  }

  lemma {:induction false} CodeGrows(env: Env, st: State, attempt: nat)
    requires attempt < env.maxRetries
    ensures Grows(st, CodeGenLoop(env, st, attempt).0)
    decreases env.maxRetries - attempt
  {
    hide Called, Writable, Raises, Overlay, Targets, Restored;
    var ran := Retry(env, CleanedUp(env, st), CodeGen, 0);
    RetryOnlyCalls(env, CleanedUp(env, st), CodeGen, 0);
    if Last(ran).ok && !Raises(env, ran) && env.tests(ran.tests) == Failing && attempt + 1 < env.maxRetries {
      CodeGrows(env, Wrote(env, ran), attempt + 1);
    }
  }

  lemma {:induction false} ReworkGrows(env: Env, st: State, attempt: nat)
    requires attempt < env.maxRetries
    ensures Grows(st, ReworkLoop(env, st, attempt).0)
    decreases env.maxRetries - attempt
  {
    hide Called, Writable, Raises, Overlay;
    var ran := Retry(env, st, CodeGen, 0);
    RetryOnlyCalls(env, st, CodeGen, 0);
    if !Raises(env, ran) && env.tests(ran.tests) == Failing && attempt + 1 < env.maxRetries {
      ReworkGrows(env, Rewrote(env, ran), attempt + 1);
    }
  }

  lemma {:induction false} ReviewGrows(env: Env, st: State, iteration: nat)
    requires iteration < env.maxRetries
    ensures Grows(st, ReviewLoop(env, st, iteration).0)
    decreases env.maxRetries - iteration
  {
    hide Called, Rejects, ReworkLoop;
    var ran := Retry(env, st, Reviewer, 0);
    RetryOnlyCalls(env, st, Reviewer, 0);
    if Last(ran).ok && Rejects(Last(ran).output) {
      ReworkGrows(env, ran, 0);
      var (reworked, rework) := ReworkLoop(env, ran, 0);
      if rework.Proceed? && iteration + 1 < env.maxRetries { ReviewGrows(env, reworked, iteration + 1); }
    }
  }

  lemma {:induction false} SameCode(env: Env, other: Env, st: State, attempt: nat, results: nat, tests: nat)
    requires attempt < env.maxRetries && AlikeUntil(env, other, results, tests)
    requires Within(CodeGenLoop(env, st, attempt).0, results, tests)
    ensures CodeGenLoop(other, st, attempt) == CodeGenLoop(env, st, attempt)
    decreases env.maxRetries - attempt
  {
    hide Called, Writable, Raises, Overlay, Targets, Restored, CleanedUp;
    var clean := CleanedUp(env, st);
    var ran := Retry(env, clean, CodeGen, 0);
    var more := attempt + 1 < env.maxRetries;
    if Last(ran).ok && !Raises(env, ran) && env.tests(ran.tests) == Failing && more {
      CodeGrows(env, Wrote(env, ran), attempt + 1);
      SameCode(env, other, Wrote(env, ran), attempt + 1, results, tests);
    }
    SameCleanUp(env, other, st, results, tests);
    SameBatch(env, other, clean, CodeGen, 0, results, tests);
    SameWrites(env, other, ran, results, tests);
    if Last(ran).ok && !Raises(env, ran) {
      assert other.tests(ran.tests) == env.tests(ran.tests);
    }
  }

  lemma {:induction false} SameRework(env: Env, other: Env, st: State, attempt: nat, results: nat, tests: nat)
    requires attempt < env.maxRetries && AlikeUntil(env, other, results, tests)
    requires Within(ReworkLoop(env, st, attempt).0, results, tests)
    ensures ReworkLoop(other, st, attempt) == ReworkLoop(env, st, attempt)
    decreases env.maxRetries - attempt
  {
    hide Called, Writable, Raises, Overlay;
    var ran := Retry(env, st, CodeGen, 0);
    if !Raises(env, ran) && env.tests(ran.tests) == Failing && attempt + 1 < env.maxRetries {
      ReworkGrows(env, Rewrote(env, ran), attempt + 1);
      SameRework(env, other, Rewrote(env, ran), attempt + 1, results, tests);
    }
    SameBatch(env, other, st, CodeGen, 0, results, tests);
    SameWrites(env, other, ran, results, tests);
    if !Raises(env, ran) {
      assert other.tests(ran.tests) == env.tests(ran.tests);
    }
  }

  lemma {:induction false} SameReview(env: Env, other: Env, st: State, iteration: nat, results: nat, tests: nat)
    requires iteration < env.maxRetries && AlikeUntil(env, other, results, tests)
    requires Within(ReviewLoop(env, st, iteration).0, results, tests)
    ensures ReviewLoop(other, st, iteration) == ReviewLoop(env, st, iteration)
    decreases env.maxRetries - iteration
  {
    hide Called, Rejects, ReworkLoop, AlikeUntil;
    assert other.maxRetries == env.maxRetries by { SameRetries(env, other, results, tests); }
    var ran := Retry(env, st, Reviewer, 0);
    if Last(ran).ok && Rejects(Last(ran).output) {
      ReworkGrows(env, ran, 0);
      var (reworked, rework) := ReworkLoop(env, ran, 0);
      if rework.Proceed? && iteration + 1 < env.maxRetries {
        ReviewGrows(env, reworked, iteration + 1);
        SameReview(env, other, reworked, iteration + 1, results, tests);
      }
      SameRework(env, other, ran, 0, results, tests);
    }
    SameBatch(env, other, st, Reviewer, 0, results, tests);
  }

  lemma SameRetries(env: Env, other: Env, results: nat, tests: nat)
    requires AlikeUntil(env, other, results, tests)
    ensures other.maxRetries == env.maxRetries
  {
  }

  lemma SameStart(env: Env, other: Env, tree: Tree, results: nat, tests: nat)
    requires ReachesTester(env, tree) && AlikeUntil(env, other, results, tests)
    requires Within(Reviewed(env, tree).0, results, tests)
    ensures other.maxRetries == env.maxRetries && Designed(other, tree) == Designed(env, tree)
    ensures other.faults(|Designed(env, tree).results| - 1) == env.faults(|Designed(env, tree).results| - 1)
    ensures Within(Coded(env, tree).0, results, tests)
  {
    hide CodeGenLoop, ReviewLoop, Retry;
    CodeGrows(env, Designed(env, tree), 0);
    ReviewGrows(env, Coded(env, tree).0, 0);
    SameBatch(env, other, Begin(tree), Architect, 0, results, tests);
  }

  lemma SameStages(env: Env, other: Env, tree: Tree, results: nat, tests: nat)
    requires ReachesTester(env, tree) && AlikeUntil(env, other, results, tests)
    requires Within(Reviewed(env, tree).0, results, tests)
    ensures other.maxRetries == env.maxRetries
    ensures Coded(other, tree) == Coded(env, tree) && Reviewed(other, tree) == Reviewed(env, tree)
  {
    SameStart(env, other, tree, results, tests);
    hide Retry, CodeGenLoop, ReviewLoop, AlikeUntil, Designed, Within, ReachesTester, Last;
    SameCode(env, other, Designed(env, tree), 0, results, tests);
    SameReview(env, other, Coded(env, tree).0, 0, results, tests);
  }

  lemma ReachedAlike(env: Env, other: Env, tree: Tree)
    requires ReachesTester(env, tree) && other.maxRetries == env.maxRetries
    requires Designed(other, tree) == Designed(env, tree)
    requires other.faults(|Designed(env, tree).results| - 1) == env.faults(|Designed(env, tree).results| - 1)
    requires Coded(other, tree) == Coded(env, tree) && Reviewed(other, tree) == Reviewed(env, tree)
    ensures ReachesTester(other, tree) && Run(other, tree) == Conclude(other, Reviewed(env, tree).0)
  {
    hide Run, Conclude, Designed, Coded, Reviewed, Last;
    EndsBeforeTester(other, tree);
  }

  lemma AllWithin(st: State)
    ensures Within(st, |st.results|, st.tests)
  {
  }

  /**
   * The tester's own test run can bear on a run only through what the agents answer after it: in any
   * world alike up to the hand-over, whatever that test run and all later answers are, the tester is
   * reached with the same code, and only the answers of the tester and the documentation writer, and
   * whether those of the latter can be written, decide how the run ends.
   */
  lemma HandOverIsReached(env: Env, other: Env, tree: Tree)
    requires ReachesTester(env, tree)
    requires var handed := Reviewed(env, tree).0; AlikeUntil(env, other, |handed.results|, handed.tests)
    ensures ReachesTester(other, tree) && Reviewed(other, tree) == Reviewed(env, tree)
    ensures Run(other, tree) == Conclude(other, Reviewed(env, tree).0)
  {
    hide Run, Conclude, AlikeUntil, Designed, Coded, Reviewed, Within, ReachesTester;
    assert env.maxRetries > 0 by { NeedsRetries(env, tree); }
    var handed := Reviewed(env, tree).0;
    AllWithin(handed);
    SameStart(env, other, tree, |handed.results|, handed.tests);
    SameStages(env, other, tree, |handed.results|, handed.tests);
    ReachedAlike(env, other, tree);
  }

  lemma NeedsRetries(env: Env, tree: Tree)
    requires ReachesTester(env, tree)
    ensures env.maxRetries > 0
  {
  }

  /** The same world up to n answers, and agents that give none after them. */
  function SilentFrom(env: Env, n: nat): Env {
    env.(agents := (i: nat) => if i < n then env.agents(i) else None)
  }

  lemma {:induction false} SilentBatch(env: Env, n: nat, st: State, agent: Agent, attempt: nat)
    requires attempt < env.maxRetries && n <= |st.results|
    ensures !Last(Retry(SilentFrom(env, n), st, agent, attempt)).ok
    decreases env.maxRetries - attempt
  {
    if attempt + 1 < env.maxRetries {
      SilentBatch(env, n, Called(SilentFrom(env, n), st, agent, attempt), agent, attempt + 1);
    }
  }

  lemma SilentConclusion(env: Env, n: nat, st: State)
    requires env.maxRetries > 0 && n <= |st.results|
    ensures Conclude(SilentFrom(env, n), st).1.TesterFailed?
  {
    SilentBatch(env, n, st.(tests := st.tests + 1), Tester, 0);
    hide Retry, SilentFrom, Raises, Writable, Overlay;
  }

  lemma SilentIsAlike(env: Env, n: nat, tests: nat)
    ensures AlikeUntil(env, SilentFrom(env, n), n, tests)
  {
  }

  /** A tester that gives no answer still fails any run that hands code over to it. */
  lemma SilentTesterFails(env: Env, tree: Tree)
    requires ReachesTester(env, tree)
    ensures Run(SilentFrom(env, |Reviewed(env, tree).0.results|), tree).1.TesterFailed?
  {
    hide ReachesTester, Reviewed, Run, AlikeUntil, Conclude, SilentFrom;
    NeedsRetries(env, tree);
    var handed := Reviewed(env, tree).0;
    var n := |handed.results|;
    SilentIsAlike(env, n, handed.tests);
    HandOverIsReached(env, SilentFrom(env, n), tree);
    SilentConclusion(env, n, handed);
  }

  lemma SameConclusion(env: Env, other: Env, st: State)
    requires env.maxRetries > 0
    requires AlikeUntil(env, other, |Conclude(env, st).0.results|, st.tests)
    ensures Conclude(other, st) == Conclude(env, st)
  {
    hide Called, Overlay, FindBlocks, BeforeFault, CannotWrite;
    var results, ready := |Conclude(env, st).0.results|, st.(tests := st.tests + 1);
    SameBatch(env, other, ready, Tester, 0, results, st.tests);
    var tested := Retry(env, ready, Tester, 0);
    if Last(tested).ok {
      SameBatch(env, other, tested, DocWriter, 0, results, st.tests);
      SameWrites(env, other, Retry(env, tested, DocWriter, 0), results, st.tests);
    }
  }

  /** For the same answers of the agents, the whole run is the same whatever the tester's own test run shows. */
  lemma SameAnswersSameRun(env: Env, other: Env, tree: Tree)
    requires ReachesTester(env, tree)
    requires AlikeUntil(env, other, |Run(env, tree).0.results|, Reviewed(env, tree).0.tests)
    ensures Run(other, tree) == Run(env, tree)
  {
    EndsBeforeTester(env, tree);
    var handed := Reviewed(env, tree).0;
    ConcludeGrows(env, handed);
    hide Retry, CodeGenLoop, ReviewLoop, Conclude, Run, Reviewed, ReachesTester;
    HandOverIsReached(env, other, tree);
    SameConclusion(env, other, handed);
  }

  lemma ConcludeGrows(env: Env, st: State)
    requires env.maxRetries > 0
    ensures |st.results| <= |Conclude(env, st).0.results|
  {
    hide Called, Overlay, Raises, Writable;
  }
}
