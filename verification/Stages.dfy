/**
 * The agent pipeline: bounded retries with exponential backoff inside a code-and-test loop, inside
 * a review loop, over a working tree that the code stage cleans between its attempts. Each stage
 * is a function to the state it leaves.
 */
module Stages {
  import opened BlockParser
  import opened WorkTree
  import opened Wrappers

  datatype Agent = Architect | CodeGen | Reviewer | Tester | DocWriter

  datatype Result = Result(agent: Agent, ok: bool, output: string, retries: nat)

  /** A run of the Go tests: they pass, they fail, or they cannot be run. */
  datatype TestRun = Passed | Failing | NotRun

  datatype Message =
    | PipelineError
    | ArchitectFailed
    | CodeGenFailed
    | TestsNeverPassed
    | ReviewerFailed
    | TesterFailed
    | Success

  /**
   * What the world answers: the n-th agent call, the n-th test run, and which block of the answer in
   * the n-th result cannot be written, if one cannot; and the run's settings.
   */
  datatype Env = Env(
    agents: nat -> Option<string>,
    tests: nat -> TestRun,
    faults: nat -> Option<nat>,
    index: Tree,
    maxRetries: nat)

  datatype State = State(results: seq<Result>, tests: nat, waits: nat, tree: Tree, touched: set<FilePath>)

  datatype Verdict = Proceed | AgentFailed | NeverPassed | Raised

  function Pow2(n: nat): nat {
    if n == 0 then 1 else 2 * Pow2(n - 1)
  }

  function Last(st: State): Result
    requires |st.results| > 0
  {
    st.results[|st.results| - 1]
  }

  /** One agent call: a completed result, or a failed one followed by a wait. */
  function Called(env: Env, st: State, agent: Agent, attempt: nat): State {
    match env.agents(|st.results|)
    case Some(output) => st.(results := st.results + [Result(agent, true, output, 0)])
    case None => st.(results := st.results + [Result(agent, false, "", attempt + 1)],
                     waits := st.waits + Pow2(attempt))
  }

  function Retry(env: Env, st: State, agent: Agent, attempt: nat): (st': State)
    requires attempt < env.maxRetries
    ensures |st'.results| > |st.results|
    decreases env.maxRetries - attempt
  {
    var called := Called(env, st, agent, attempt);
    if !Last(called).ok && attempt + 1 < env.maxRetries then Retry(env, called, agent, attempt + 1) else called
  }

  function CleanedUp(env: Env, st: State): State {
    st.(tree := Restored(st.tree, env.index, st.touched))
  }

  /** Whether writing the last answer ends in an exception. */
  predicate Raises(env: Env, st: State)
    requires |st.results| > 0
  {
    CannotWrite(FindBlocks(Last(st).output), env.faults(|st.results| - 1))
  }

  /** The last answer's blocks, as far as they get written. */
  function Writable(env: Env, st: State): seq<Block>
    requires |st.results| > 0
  {
    BeforeFault(FindBlocks(Last(st).output), env.faults(|st.results| - 1))
  }

  /** Write the last answer's blocks, remember them for the next clean-up, and run the tests. */
  function Wrote(env: Env, st: State): State
    requires |st.results| > 0
  {
    var written := st.(tree := Overlay(st.tree, Writable(env, st)));
    if Raises(env, st) then written
    else written.(touched := st.touched + Targets(Writable(env, st)), tests := st.tests + 1)
  }

  function CodeGenLoop(env: Env, st: State, attempt: nat): (State, Verdict)
    requires attempt < env.maxRetries
    decreases env.maxRetries - attempt
  {
    var ran := Retry(env, CleanedUp(env, st), CodeGen, 0);
    if !Last(ran).ok then (ran, AgentFailed)
    else if Raises(env, ran) then (Wrote(env, ran), Raised)
    else if env.tests(ran.tests) != Failing then (Wrote(env, ran), Proceed)
    else if attempt + 1 < env.maxRetries then CodeGenLoop(env, Wrote(env, ran), attempt + 1)
    else (Wrote(env, ran), NeverPassed)
  }

  /** Write the last answer's blocks over whatever is there, and run the tests. */
  function Rewrote(env: Env, st: State): State
    requires |st.results| > 0
  {
    var written := st.(tree := Overlay(st.tree, Writable(env, st)));
    if Raises(env, st) then written else written.(tests := st.tests + 1)
  }

  function ReworkLoop(env: Env, st: State, attempt: nat): (end: (State, Verdict))
    requires attempt < env.maxRetries
    ensures end.1.Proceed? || end.1.Raised?
    decreases env.maxRetries - attempt
  {
    var ran := Retry(env, st, CodeGen, 0);
    if Raises(env, ran) then (Rewrote(env, ran), Raised)
    else if env.tests(ran.tests) == Failing && attempt + 1 < env.maxRetries
    then ReworkLoop(env, Rewrote(env, ran), attempt + 1)
    else (Rewrote(env, ran), Proceed)
  }

  function Upper(c: char): char {
    if 'a' <= c <= 'z' then (c as int - 'a' as int + 'A' as int) as char else c
  }

  const REJECT := "REJECT"

  predicate RejectAt(output: string, i: nat) {
    i + |REJECT| <= |output| && forall j :: 0 <= j < |REJECT| ==> Upper(output[i + j]) == REJECT[j]
  }

  predicate Rejects(output: string) {
    exists i :: 0 <= i < |output| && RejectAt(output, i)
  }

  lemma RejectIsRejected()
    ensures Rejects(REJECT)
  {
    assert RejectAt(REJECT, 0);
  }

  /** The word, in letters of either case. */
  predicate SaysReject(word: string) {
    |word| == 6 && forall k :: 0 <= k < 6 ==> word[k] == "REJECT"[k] || word[k] == "reject"[k]
  }

  lemma UpperLetter(c: char, k: nat)
    requires k < 6
    ensures Upper(c) == REJECT[k] <==> c == "REJECT"[k] || c == "reject"[k]
  {
  }

  predicate SaysRejectAt(output: string, i: int) {
    0 <= i <= |output| - 6 && SaysReject(output[i..i + 6])
  }

  /** An answer rejects exactly if it holds the word somewhere, in letters of either case, whatever stands around it. */
  lemma RejectsExactly(output: string)
    ensures Rejects(output) <==> exists i :: SaysRejectAt(output, i)
  {
    hide Upper;
    if i :| 0 <= i < |output| && RejectAt(output, i) {
      forall k | 0 <= k < 6 ensures output[i + k] == "REJECT"[k] || output[i + k] == "reject"[k] {
        UpperLetter(output[i + k], k);
      }
      assert SaysRejectAt(output, i);
    }
    if i :| SaysRejectAt(output, i) {
      forall k | 0 <= k < 6 ensures Upper(output[i + k]) == REJECT[k] {
        assert output[i..i + 6][k] == output[i + k];
        UpperLetter(output[i + k], k);
      }
      assert RejectAt(output, i);
    }
  }

  lemma RejectsInContext(before: string, word: string, after: string)
    requires SaysReject(word)
    ensures Rejects(before + word + after)
  {
    var output := before + word + after;
    assert output[|before|..|before| + 6] == word;
    assert SaysRejectAt(output, |before|);
    RejectsExactly(output);
  }

  function ReviewLoop(env: Env, st: State, iteration: nat): (end: (State, Verdict))
    requires iteration < env.maxRetries
    ensures !end.1.NeverPassed?
    decreases env.maxRetries - iteration
  {
    var ran := Retry(env, st, Reviewer, 0);
    if !Last(ran).ok then (ran, AgentFailed)
    else if !Rejects(Last(ran).output) then (ran, Proceed)
    else
      var (reworked, rework) := ReworkLoop(env, ran, 0);
      if rework.Raised? then (reworked, Raised)
      else if iteration + 1 < env.maxRetries then ReviewLoop(env, reworked, iteration + 1) else (reworked, Proceed)
  }

  function Begin(tree: Tree): State { State([], 0, 0, tree, {}) }

  /**
   * The tester's stage, whose tests only feed its prompt, and the documentation writer's, whose
   * success is not asked for.
   */
  function Conclude(env: Env, st: State): (State, Message)
    requires env.maxRetries > 0
  {
    var tested := Retry(env, st.(tests := st.tests + 1), Tester, 0);
    if !Last(tested).ok then (tested, TesterFailed)
    else
      var documented := Retry(env, tested, DocWriter, 0);
      (documented.(tree := Overlay(documented.tree, Writable(env, documented))),
       if Raises(env, documented) then PipelineError else Success)
  }

  function Assess(env: Env, st: State): (State, Message)
    requires env.maxRetries > 0
  {
    var (reviewed, review) := ReviewLoop(env, st, 0);
    if review.Raised? then (reviewed, PipelineError)
    else if review.AgentFailed? then (reviewed, ReviewerFailed)
    else Conclude(env, reviewed)
  }

  function Produce(env: Env, st: State): (State, Message)
    requires env.maxRetries > 0
  {
    var (coded, coding) := CodeGenLoop(env, st, 0);
    if coding.Raised? then (coded, PipelineError)
    else if coding.AgentFailed? then (coded, CodeGenFailed)
    else if coding.NeverPassed? then (coded, TestsNeverPassed)
    else Assess(env, coded)
  }

  /**
   * A whole run. Without retries there is no result to look at, which is an error, and so is every
   * file that cannot be written, the architect's specification among them.
   */
  function Run(env: Env, tree: Tree): (State, Message) {
    if env.maxRetries == 0 then (Begin(tree), PipelineError)
    else
      var designed := Retry(env, Begin(tree), Architect, 0);
      if !Last(designed).ok then (designed, ArchitectFailed)
      else if env.faults(|designed.results| - 1).Some? then (designed, PipelineError)
      else Produce(env, designed)
  }

  // ---------- The stations of a run ----------

  /** The states that the architect, the code stage and the review loop of a run leave. */
  function Designed(env: Env, tree: Tree): State
    requires env.maxRetries > 0
  {
    Retry(env, Begin(tree), Architect, 0)
  }

  function Coded(env: Env, tree: Tree): (State, Verdict)
    requires env.maxRetries > 0
  {
    CodeGenLoop(env, Designed(env, tree), 0)
  }

  function Reviewed(env: Env, tree: Tree): (State, Verdict)
    requires env.maxRetries > 0
  {
    ReviewLoop(env, Coded(env, tree).0, 0)
  }

  /** A run comes to its tester with the code the review loop let through. */
  predicate ReachesTester(env: Env, tree: Tree) {
    && env.maxRetries > 0
    && Last(Designed(env, tree)).ok && env.faults(|Designed(env, tree).results| - 1).None?
    && Coded(env, tree).1.Proceed? && Reviewed(env, tree).1.Proceed?
  }
}
