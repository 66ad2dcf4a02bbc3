/** The pipeline as it runs: its loops over agents, tests and files, each proved to be the stage it carries out. */
module Pipeline {
  import opened BlockParser
  import opened WorkTree
  import opened Wrappers
  import opened Stages

  class Pipeline {
    const env: Env
    var results: seq<Result>
    var tests: nat
    var waits: nat
    var tree: Tree
    var touched: set<FilePath>

    constructor (env: Env, tree: Tree)
      ensures this.env == env && Now() == Begin(tree)
    {
      this.env := env;
      this.tree := tree;
      results, tests, waits, touched := [], 0, 0, {};
    }

    ghost function Now(): State
      reads this
    {
      State(results, tests, waits, tree, touched)
    }

    /** One call of an agent, and the wait after it if it failed. */
    method Call(agent: Agent, attempt: nat) returns (result: Result)
      modifies this
      ensures Now() == Called(env, old(Now()), agent, attempt) && |results| > 0 && result == Last(Now())
    {
      match env.agents(|results|) {
        case Some(output) =>
          result := Result(agent, true, output, 0);
        case None =>
          result := Result(agent, false, "", attempt + 1);
          waits := waits + Pow2(attempt);
      }
      results := results + [result];
    }

    /** Call an agent until it completes, waiting twice as long after each failure; without a try there is no result. */
    method RunWithRetry(agent: Agent) returns (result: Option<Result>)
      modifies this
      ensures env.maxRetries == 0 ==> Now() == old(Now()) && result.None?
      ensures env.maxRetries > 0 ==> Now() == Retry(env, old(Now()), agent, 0) && result == Some(Last(Now()))
    {
      hide Called;
      result := None;
      for attempt := 0 to env.maxRetries
        invariant attempt < env.maxRetries ==> Retry(env, Now(), agent, attempt) == Retry(env, old(Now()), agent, 0)
        invariant attempt == env.maxRetries > 0 ==> Now() == Retry(env, old(Now()), agent, 0)
        invariant attempt == 0 ==> Now() == old(Now()) && result.None?
        invariant attempt > 0 ==> |results| > 0 && result == Some(Last(Now()))
      {
        var called := Call(agent, attempt);
        result := Some(called);
        if called.ok { return; }
      }
    }

    /** Write the last answer's blocks until one cannot be written. */
    method WriteAnswer(output: string) returns (written: seq<string>, raised: bool)
      requires |results| > 0 && output == Last(Now()).output
      modifies this`tree
      ensures raised == Raises(env, old(Now())) && tree == Overlay(old(tree), Writable(env, old(Now())))
      ensures Files(written) == Targets(Writable(env, old(Now())))
    {
      tree, written, raised := ParseAndWriteFiles(output, tree, env.faults(|results| - 1));
    }

    method RunTests() returns (outcome: TestRun)
      modifies this`tests
      ensures tests == old(tests) + 1 && outcome == env.tests(old(tests))
    {
      outcome := env.tests(tests);
      tests := tests + 1;
    }

    /** The code stage: clean up, ask for code, write it and test it, until the tests do not fail. */
    method GenerateCode() returns (verdict: Verdict)
      requires env.maxRetries > 0
      modifies this
      ensures (Now(), verdict) == CodeGenLoop(env, old(Now()), 0)
    {
      hide Retry, Overlay, Restored, FindBlocks, Targets, Files, Raises, Writable;
      for attempt := 0 to env.maxRetries
        invariant attempt < env.maxRetries ==> CodeGenLoop(env, Now(), attempt) == CodeGenLoop(env, old(Now()), 0)
        invariant attempt == env.maxRetries ==> (Now(), NeverPassed) == CodeGenLoop(env, old(Now()), 0)
      {
        ghost var before := Now();
        tree := CleanUp(tree, env.index, touched);
        assert Now() == CleanedUp(env, before);
        var result := RunWithRetry(CodeGen);
        ghost var ran := Now();
        if !result.value.ok { return AgentFailed; }
        var written, raised := WriteAnswer(result.value.output);
        if raised {
          assert Now() == Wrote(env, ran);
          return Raised;
        }
        touched := touched + Files(written);
        var outcome := RunTests();
        assert Now() == Wrote(env, ran);
        if outcome != Failing { return Proceed; }
      }
      return NeverPassed;
    }

    /** After a rejection: ask for code, write it and test it, until the tests do not fail or the tries run out. */
    method Rework() returns (verdict: Verdict)
      requires env.maxRetries > 0
      modifies this
      ensures (Now(), verdict) == ReworkLoop(env, old(Now()), 0)
    {
      hide Retry, Overlay, FindBlocks, Targets, Raises, Writable;
      for attempt := 0 to env.maxRetries
        invariant attempt < env.maxRetries ==> ReworkLoop(env, Now(), attempt) == ReworkLoop(env, old(Now()), 0)
        invariant attempt == env.maxRetries ==> (Now(), Proceed) == ReworkLoop(env, old(Now()), 0)
      {
        var result := RunWithRetry(CodeGen);
        ghost var ran := Now();
        var written, raised := WriteAnswer(result.value.output);
        if raised {
          assert Now() == Rewrote(env, ran);
          return Raised;
        }
        var outcome := RunTests();
        assert Now() == Rewrote(env, ran);
        if outcome != Failing { return Proceed; }
      }
      return Proceed;
    }

    method Review() returns (verdict: Verdict)
      requires env.maxRetries > 0
      modifies this
      ensures (Now(), verdict) == ReviewLoop(env, old(Now()), 0)
    {
      hide Retry, ReworkLoop, Rejects;
      for iteration := 0 to env.maxRetries
        invariant iteration < env.maxRetries ==> ReviewLoop(env, Now(), iteration) == ReviewLoop(env, old(Now()), 0)
        invariant iteration == env.maxRetries ==> (Now(), Proceed) == ReviewLoop(env, old(Now()), 0)
      {
        var result := RunWithRetry(Reviewer);
        if !result.value.ok { return AgentFailed; }
        if !Rejects(result.value.output) { return Proceed; }
        var rework := Rework();
        if rework.Raised? { return Raised; }
      }
      return Proceed;
    }

    /** The tester, whose test run only feeds its prompt, and the documentation writer. */
    method Finish() returns (message: Message)
      requires env.maxRetries > 0
      modifies this
      ensures (Now(), message) == Conclude(env, old(Now()))
    {
      hide Retry, Overlay, FindBlocks, Targets, Raises, Writable;
      var logs := RunTests();
      var test := RunWithRetry(Tester);
      if !test.value.ok { return TesterFailed; }
      var doc := RunWithRetry(DocWriter);
      var written, raised := WriteAnswer(doc.value.output);
      return if raised then PipelineError else Success;
    }

    method Execute() returns (message: Message)
      requires Now() == Begin(tree)
      modifies this
      ensures (Now(), message) == Run(env, old(tree))
    {
      hide Retry, CodeGenLoop, ReviewLoop, Conclude;
      var design := RunWithRetry(Architect);
      if design.None? { return PipelineError; }
      if !design.value.ok { return ArchitectFailed; }
      if env.faults(|results| - 1).Some? { return PipelineError; }
      var coding := GenerateCode();
      if coding.Raised? { return PipelineError; }
      if coding.AgentFailed? { return CodeGenFailed; }
      if coding.NeverPassed? { return TestsNeverPassed; }
      var review := Review();
      if review.Raised? { return PipelineError; }
      if review.AgentFailed? { return ReviewerFailed; }
      message := Finish();
    }
  }
}
