/**
 * What the final message of a run says and does not say: which agents completed, whether a review
 * approved the code, and whether its tests passed.
 */
module Outcomes {
  import opened BlockParser
  import opened Stages
  import opened Traces
  import opened WorkTree
  import opened Wrappers

  // ---------- Who completed ----------

  ghost predicate Completed(rs: seq<Result>, agent: Agent) {
    exists i :: 0 <= i < |rs| && rs[i].agent == agent && rs[i].ok
  }

  lemma CompletedInBatch(before: seq<Result>, after: seq<Result>, agent: Agent, tries: nat, other: Agent)
    requires IsBatch(before, after, agent, tries)
    ensures Completed(after, other) <==> Completed(before, other) || (agent == other && after[|after| - 1].ok)
  {
    forall i | 0 <= i < |before| ensures after[i] == before[i] {}
    if Completed(before, other) {
      var i :| 0 <= i < |before| && before[i].agent == other && before[i].ok;
      assert after[i].ok;
    }
    assert after[|after| - 1].agent == agent;
  }

  /** A batch completes its own agent if it ends well, and no other. */
  lemma RetryCompletes(env: Env, st: State, agent: Agent, other: Agent)
    requires env.maxRetries > 0
    ensures var st' := Retry(env, st, agent, 0);
            Completed(st'.results, other) <==> Completed(st.results, other) || (agent == other && Last(st').ok)
  {
    RetryIsBatch(env, st, agent, 0);
    hide IsBatch, Completed, Called;
    CompletedInBatch(st.results, Retry(env, st, agent, 0).results, agent, env.maxRetries, other);
  }

  lemma {:induction false} CodeGenCompletes(env: Env, st: State, attempt: nat, other: Agent)
    requires attempt < env.maxRetries
    ensures var (st', verdict) := CodeGenLoop(env, st, attempt);
            && (Completed(st.results, other) ==> Completed(st'.results, other))
            && (other != CodeGen && Completed(st'.results, other) ==> Completed(st.results, other))
            && (verdict.Proceed? ==> Completed(st'.results, CodeGen))
    decreases env.maxRetries - attempt
  {
    hide Writable, Raises, Overlay, Targets, Restored, Called, Completed;
    var ran := Retry(env, CleanedUp(env, st), CodeGen, 0);
    RetryCompletes(env, CleanedUp(env, st), CodeGen, other);
    RetryCompletes(env, CleanedUp(env, st), CodeGen, CodeGen);
    if Last(ran).ok && !Raises(env, ran) && env.tests(ran.tests) == Failing && attempt + 1 < env.maxRetries {
      CodeGenCompletes(env, Wrote(env, ran), attempt + 1, other);
    }
  }

  lemma {:induction false} ReworkCompletes(env: Env, st: State, attempt: nat, other: Agent)
    requires attempt < env.maxRetries
    ensures var st' := ReworkLoop(env, st, attempt).0;
            && (Completed(st.results, other) ==> Completed(st'.results, other))
            && (other != CodeGen && Completed(st'.results, other) ==> Completed(st.results, other))
    decreases env.maxRetries - attempt
  {
    hide Writable, Raises, Overlay, Called, Completed;
    var ran := Retry(env, st, CodeGen, 0);
    RetryCompletes(env, st, CodeGen, other);
    if !Raises(env, ran) && env.tests(ran.tests) == Failing && attempt + 1 < env.maxRetries {
      ReworkCompletes(env, Rewrote(env, ran), attempt + 1, other);
    }
  }

  lemma {:induction false} ReviewCompletes(env: Env, st: State, iteration: nat, other: Agent)
    requires iteration < env.maxRetries
    ensures var (st', verdict) := ReviewLoop(env, st, iteration);
            && (Completed(st.results, other) ==> Completed(st'.results, other))
            && (other != CodeGen && other != Reviewer && Completed(st'.results, other) ==> Completed(st.results, other))
            && (verdict.Proceed? ==> Completed(st'.results, Reviewer))
    decreases env.maxRetries - iteration
  {
    hide Rejects, Called, Completed, ReworkLoop;
    var ran := Retry(env, st, Reviewer, 0);
    RetryCompletes(env, st, Reviewer, other);
    RetryCompletes(env, st, Reviewer, Reviewer);
    if Last(ran).ok && Rejects(Last(ran).output) {
      ReworkCompletes(env, ran, 0, other);
      ReworkCompletes(env, ran, 0, Reviewer);
      var (reworked, rework) := ReworkLoop(env, ran, 0);
      if rework.Proceed? && iteration + 1 < env.maxRetries {
        ReviewCompletes(env, reworked, iteration + 1, other);
      }
    }
  }

  /** A run that ends because an answer of the documentation writer cannot be written. */
  predicate Undocumented(st: State, message: Message) {
    message.PipelineError? && |st.results| > 0 && Last(st).agent == DocWriter
  }

  lemma ConcludeCompletes(env: Env, st: State, other: Agent)
    requires env.maxRetries > 0 && !Completed(st.results, Tester)
    ensures var (st', message) := Conclude(env, st);
            && (Completed(st.results, other) ==> Completed(st'.results, other))
            && (Completed(st'.results, Tester) <==> message.Success? || Undocumented(st', message))
            && (message.TesterFailed? || message.Success? || Undocumented(st', message))
  {
    hide Called, Writable, Raises, Overlay, Completed;
    var ready := st.(tests := st.tests + 1);
    RetryCompletes(env, ready, Tester, other);
    RetryCompletes(env, ready, Tester, Tester);
    var tested := Retry(env, ready, Tester, 0);
    if Last(tested).ok {
      RetryCompletes(env, tested, DocWriter, other);
      RetryCompletes(env, tested, DocWriter, Tester);
      RetryOnlyCalls(env, tested, DocWriter, 0);
    }
  }

  /** Only a run that comes to its tester can have completed it or succeed. */
  lemma EndsBeforeTester(env: Env, tree: Tree)
    ensures ReachesTester(env, tree) ==> Run(env, tree) == Conclude(env, Reviewed(env, tree).0)
    ensures !ReachesTester(env, tree) ==> !Run(env, tree).1.Success? && !Run(env, tree).1.TesterFailed?
    ensures !ReachesTester(env, tree) && env.maxRetries > 0 ==>
      Run(env, tree).0 in {Designed(env, tree), Coded(env, tree).0, Reviewed(env, tree).0}
  {
    hide Retry, CodeGenLoop, ReviewLoop, Conclude, Last;
  }

  lemma NotYetTested(env: Env, tree: Tree)
    requires env.maxRetries > 0
    ensures !Completed(Designed(env, tree).results, Tester) && !Completed(Coded(env, tree).0.results, Tester)
    ensures !Completed(Reviewed(env, tree).0.results, Tester)
  {
    assert !Completed([], Tester);
    hide Retry, CodeGenLoop, ReviewLoop, Completed;
    RetryCompletes(env, Begin(tree), Architect, Tester);
    CodeGenCompletes(env, Designed(env, tree), 0, Tester);
    ReviewCompletes(env, Coded(env, tree).0, 0, Tester);
  }

  lemma CompletedBefore(env: Env, tree: Tree, agent: Agent)
    requires ReachesTester(env, tree) && agent in {Architect, CodeGen, Reviewer}
    ensures Completed(Reviewed(env, tree).0.results, agent)
  {
    hide CodeGenLoop, ReviewLoop, Completed;
    RetryCompletes(env, Begin(tree), Architect, Architect);
    CodeGenCompletes(env, Designed(env, tree), 0, agent);
    ReviewCompletes(env, Coded(env, tree).0, 0, agent);
  }

  /**
   * The tester's result decides: it is completed exactly in the runs that announce success and in
   * those where only writing the documentation failed; the architect, the code generator and a
   * reviewer have then completed too.
   */
  lemma SuccessExactlyWhenTested(env: Env, tree: Tree)
    ensures var (st, message) := Run(env, tree);
            && (message.Success? || Undocumented(st, message) <==> Completed(st.results, Tester))
            && (Completed(st.results, Tester) ==>
                  Completed(st.results, Architect) && Completed(st.results, CodeGen) && Completed(st.results, Reviewer))
  {
    EndsBeforeTester(env, tree);
    if ReachesTester(env, tree) {
      NotYetTested(env, tree);
      hide Run, Conclude, Completed, Undocumented;
      forall agent | agent in {Architect, CodeGen, Reviewer} ensures Completed(Run(env, tree).0.results, agent) {
        CompletedBefore(env, tree, agent);
        hide ReachesTester, Reviewed;
        ConcludeCompletes(env, Reviewed(env, tree).0, agent);
      }
      hide ReachesTester, Reviewed;
      ConcludeCompletes(env, Reviewed(env, tree).0, Tester);
    } else if env.maxRetries > 0 {
      NotYetTested(env, tree);
      NoDocumentation(env, tree);
    }
  }

  lemma NoDocumentation(env: Env, tree: Tree)
    requires env.maxRetries > 0 && !ReachesTester(env, tree)
    ensures !Undocumented(Run(env, tree).0, Run(env, tree).1)
  {
    hide Retry, CodeGenLoop, ReviewLoop, Conclude;
    EndsBeforeTester(env, tree);
    RetryOnlyCalls(env, Begin(tree), Architect, 0);
    CodeStageEndsInCode(env, Designed(env, tree), 0);
    ReviewEnds(env, Coded(env, tree).0, 0);
  }

  lemma {:induction false} ReworkEndsInCode(env: Env, st: State, attempt: nat)
    requires attempt < env.maxRetries
    ensures var st' := ReworkLoop(env, st, attempt).0; |st'.results| > 0 && Last(st').agent == CodeGen
    decreases env.maxRetries - attempt
  {
    hide Writable, Raises, Overlay, Called;
    var ran := Retry(env, st, CodeGen, 0);
    RetryOnlyCalls(env, st, CodeGen, 0);
    if !Raises(env, ran) && env.tests(ran.tests) == Failing && attempt + 1 < env.maxRetries {
      ReworkEndsInCode(env, Rewrote(env, ran), attempt + 1);
    }
  }

  lemma {:induction false} ReviewEnds(env: Env, st: State, iteration: nat)
    requires iteration < env.maxRetries
    ensures var st' := ReviewLoop(env, st, iteration).0;
            |st'.results| > 0 && (Last(st').agent == CodeGen || Last(st').agent == Reviewer)
    decreases env.maxRetries - iteration
  {
    hide Rejects, Called, ReworkLoop;
    var ran := Retry(env, st, Reviewer, 0);
    RetryOnlyCalls(env, st, Reviewer, 0);
    if Last(ran).ok && Rejects(Last(ran).output) {
      ReworkEndsInCode(env, ran, 0);
      var (reworked, rework) := ReworkLoop(env, ran, 0);
      if rework.Proceed? && iteration + 1 < env.maxRetries {
        ReviewEnds(env, reworked, iteration + 1);
      }
    }
  }

  // ---------- What the message says ----------

  /** Only a completed answer can hold a block that cannot be written. */
  lemma RaisesIsCompleted(env: Env, st: State, agent: Agent)
    requires env.maxRetries > 0 && Raises(env, Retry(env, st, agent, 0))
    ensures Last(Retry(env, st, agent, 0)).ok
  {
    hide FindBlocks, Called, Retry, Contained;
    FailedSaysNothing(env, st, agent);
    NothingInNothing();
  }

  /** How the code stage ends: by a failed call, by a file that cannot be written, or after all was written. */
  lemma {:induction false} CodeEnds(env: Env, st: State, attempt: nat)
    requires attempt < env.maxRetries
    ensures var (st', verdict) := CodeGenLoop(env, st, attempt);
            && |st'.results| > 0 && Last(st').agent == CodeGen
            && (verdict.AgentFailed? <==> !Last(st').ok)
            && (verdict.Raised? <==> Last(st').ok && Raises(env, st'))
    decreases env.maxRetries - attempt
  {
    hide Writable, Raises, Overlay, Targets, Restored, Called;
    var ran := Retry(env, CleanedUp(env, st), CodeGen, 0);
    RetryOnlyCalls(env, CleanedUp(env, st), CodeGen, 0);
    SameAnswer(env, ran);
    if Last(ran).ok && !Raises(env, ran) && env.tests(ran.tests) == Failing && attempt + 1 < env.maxRetries {
      CodeEnds(env, Wrote(env, ran), attempt + 1);
    }
  }

  lemma {:induction false} ReworkEnds(env: Env, st: State, attempt: nat)
    requires attempt < env.maxRetries
    ensures var (st', verdict) := ReworkLoop(env, st, attempt);
            && |st'.results| > 0 && Last(st').agent == CodeGen
            && (verdict.Raised? <==> Raises(env, st')) && (verdict.Raised? ==> Last(st').ok)
    decreases env.maxRetries - attempt
  {
    hide Writable, Raises, Overlay, Called;
    var ran := Retry(env, st, CodeGen, 0);
    RetryOnlyCalls(env, st, CodeGen, 0);
    SameAnswer(env, ran);
    if Raises(env, ran) {
      RaisesIsCompleted(env, st, CodeGen);
    } else if env.tests(ran.tests) == Failing && attempt + 1 < env.maxRetries {
      ReworkEnds(env, Rewrote(env, ran), attempt + 1);
    }
  }

  lemma {:induction false} ReviewEndsBy(env: Env, st: State, iteration: nat)
    requires iteration < env.maxRetries
    ensures var (st', verdict) := ReviewLoop(env, st, iteration);
            && |st'.results| > 0
            && (verdict.AgentFailed? ==> Last(st').agent == Reviewer && !Last(st').ok)
            && (verdict.Raised? ==> Last(st').agent == CodeGen && Last(st').ok && Raises(env, st'))
    decreases env.maxRetries - iteration
  {
    hide Rejects, Called, ReworkLoop, Raises;
    var ran := Retry(env, st, Reviewer, 0);
    RetryOnlyCalls(env, st, Reviewer, 0);
    if Last(ran).ok && Rejects(Last(ran).output) {
      ReworkEnds(env, ran, 0);
      var (reworked, rework) := ReworkLoop(env, ran, 0);
      if rework.Proceed? && iteration + 1 < env.maxRetries {
        ReviewEndsBy(env, reworked, iteration + 1);
      }
    }
  }

  lemma ConcludeEnds(env: Env, st: State)
    requires env.maxRetries > 0
    ensures var (st', message) := Conclude(env, st);
            && |st'.results| > 0
            && (message.TesterFailed? || message.Success? || message.PipelineError?)
            && (message.TesterFailed? ==> Last(st').agent == Tester && !Last(st').ok)
            && (message.Success? ==> Last(st').agent == DocWriter && !Raises(env, st'))
            && (message.PipelineError? ==> Last(st').agent == DocWriter && Raises(env, st'))
  {
    hide Called, Writable, Overlay, FindBlocks, CannotWrite;
    var ready := st.(tests := st.tests + 1);
    RetryOnlyCalls(env, ready, Tester, 0);
    RetryOnlyCalls(env, Retry(env, ready, Tester, 0), DocWriter, 0);
  }

  /**
   * The message that belongs to a last result: which agent gave it, whether it completed, and what
   * could be written.
   */
  ghost predicate Fits(env: Env, st: State, message: Message)
    requires |st.results| > 0
  {
    var agent, ok := Last(st).agent, Last(st).ok;
    match message
    case ArchitectFailed => agent == Architect && !ok
    case CodeGenFailed => agent == CodeGen && !ok
    case TestsNeverPassed => agent == CodeGen && ok && !Raises(env, st)
    case ReviewerFailed => agent == Reviewer && !ok
    case TesterFailed => agent == Tester && !ok
    case Success => agent == DocWriter && !Raises(env, st)
    case PipelineError =>
      || (agent == Architect && ok)
      || (agent == CodeGen && ok && Raises(env, st))
      || (agent == DocWriter && Raises(env, st))
  }

  lemma AssessFits(env: Env, st: State)
    requires env.maxRetries > 0
    ensures var (st', message) := Assess(env, st); |st'.results| > 0 && Fits(env, st', message)
  {
    hide ReviewLoop, Conclude, Raises;
    ReviewEndsBy(env, st, 0);
    ConcludeEnds(env, ReviewLoop(env, st, 0).0);
  }

  lemma ProduceFits(env: Env, st: State)
    requires env.maxRetries > 0
    ensures var (st', message) := Produce(env, st); |st'.results| > 0 && Fits(env, st', message)
  {
    hide CodeGenLoop, Assess, Raises;
    CodeEnds(env, st, 0);
    AssessFits(env, CodeGenLoop(env, st, 0).0);
  }

  /**
   * The message of a run is the one that belongs to its last result and to no other: each agent's
   * failure has its own, code that never passed its tests has another, and a file that cannot be
   * written is always a pipeline error.
   */
  lemma MessageFitsLastResult(env: Env, tree: Tree)
    ensures var (st, message) := Run(env, tree);
            if env.maxRetries == 0 then message == PipelineError && st.results == []
            else |st.results| > 0 && forall other :: Fits(env, st, other) <==> other == message
  {
    hide Produce, Raises;
    if env.maxRetries > 0 {
      RetryOnlyCalls(env, Begin(tree), Architect, 0);
      ProduceFits(env, Designed(env, tree));
      hide Retry;
    }
  }

  lemma ProducePassesArchitect(env: Env, st: State)
    requires env.maxRetries > 0
    ensures var st' := Produce(env, st).0; |st'.results| > 0 && Last(st').agent != Architect
  {
    hide CodeGenLoop, ReviewLoop, Conclude, Raises;
    CodeEnds(env, st, 0);
    var coded := CodeGenLoop(env, st, 0).0;
    ReviewEnds(env, coded, 0);
    ConcludeEnds(env, ReviewLoop(env, coded, 0).0);
  }

  /**
   * Once the architect completed, the run ends right there exactly if its specification cannot be
   * written, as a pipeline error; otherwise it goes on to the code stage.
   */
  lemma SpecificationExactly(env: Env, tree: Tree)
    requires env.maxRetries > 0 && Last(Designed(env, tree)).ok
    ensures var designed, (st, message) := Designed(env, tree), Run(env, tree);
            var unwritten := env.faults(|designed.results| - 1).Some?;
            && |st.results| > 0 && (unwritten <==> Last(st).agent == Architect)
            && (unwritten ==> st == designed && message == PipelineError)
  {
    RetryOnlyCalls(env, Begin(tree), Architect, 0);
    hide Retry, Produce;
    ProducePassesArchitect(env, Designed(env, tree));
  }

  /** A run gives up on its code's tests exactly when it comes to its code stage and that one's R test runs all fail. */
  lemma {:induction false} CodeFailsExactly(env: Env, st: State, attempt: nat)
    requires attempt < env.maxRetries
    requires CodeGenLoop(env, st, attempt).1.Proceed? || CodeGenLoop(env, st, attempt).1.NeverPassed?
    ensures var (st', verdict) := CodeGenLoop(env, st, attempt);
            && st.tests < st'.tests <= st.tests + env.maxRetries - attempt
            && (verdict.NeverPassed? <==> UsedUp(env, st, env.maxRetries - attempt))
            && (verdict.NeverPassed? ==> st'.tests == st.tests + env.maxRetries - attempt)
    decreases env.maxRetries - attempt
  {
    hide Writable, Raises, Overlay, Targets, Restored, Called, UsedUp;
    var clean := CleanedUp(env, st);
    var ran := Retry(env, clean, CodeGen, 0);
    RetryOnlyCalls(env, clean, CodeGen, 0);
    OneTestMore(env, st, Wrote(env, ran), env.maxRetries - attempt);
    if env.tests(ran.tests) == Failing && attempt + 1 < env.maxRetries {
      CodeFailsExactly(env, Wrote(env, ran), attempt + 1);
    } else {
      NoTestsLeft(env, Wrote(env, ran));
    }
  }

  // ---------- What a review leads to ----------

  lemma FollowedBy(rs: seq<Result>, i: nat)
    requires Orderly(rs) && i + 1 < |rs| && rs[i].agent == Reviewer && rs[i].ok
    ensures rs[i + 1].agent == if Rejects(rs[i].output) then CodeGen else Tester
  {
    hide Rejects;
    assert Follows(rs[i], rs[i + 1].agent);
  }

  lemma ReviewIsNotLast(env: Env, st: State, message: Message)
    requires |st.results| > 0 && Fits(env, st, message)
    ensures !(Last(st).agent == Reviewer && Last(st).ok)
  {
    hide Raises;
  }

  /**
   * In every run a completed review leads on to the code generator if it says the word REJECT, in
   * letters of either case, and on to the tester if it does not.
   */
  lemma ReviewsDecide(env: Env, tree: Tree, i: nat)
    requires var rs := Run(env, tree).0.results; i < |rs| && rs[i].agent == Reviewer && rs[i].ok
    ensures var rs := Run(env, tree).0.results;
            && i + 1 < |rs|
            && rs[i + 1].agent == if exists at :: SaysRejectAt(rs[i].output, at) then CodeGen else Tester
  {
    hide Run, Rejects, Fits, Orderly, SaysRejectAt;
    var (st, message) := Run(env, tree);
    RunIsOrderly(env, tree);
    MessageFitsLastResult(env, tree);
    assert Fits(env, st, message);
    ReviewIsNotLast(env, st, message);
    FollowedBy(st.results, i);
    RejectsExactly(st.results[i].output);
  }

  /** In the review loop, a completed review that says the word starts a rework, and any other ends the loop. */
  lemma ReviewBranches(env: Env, st: State, iteration: nat)
    requires iteration < env.maxRetries && Last(Retry(env, st, Reviewer, 0)).ok
    ensures var ran := Retry(env, st, Reviewer, 0);
      var (reworked, rework) := ReworkLoop(env, ran, 0);
      ReviewLoop(env, st, iteration)
      == if !exists at :: SaysRejectAt(Last(ran).output, at) then (ran, Proceed)
         else if rework == Raised then (reworked, Raised)
         else if iteration + 1 == env.maxRetries then (reworked, Proceed)
         else ReviewLoop(env, reworked, iteration + 1)
  {
    RejectsExactly(Last(Retry(env, st, Reviewer, 0)).output);
    hide Rejects, SaysRejectAt, Called;
  }

  // ---------- Whether the code was approved ----------

  function Rejection(r: Result): nat {
    if r.agent == Reviewer && r.ok && Rejects(r.output) then 1 else 0
  }

  /** How many reviews rejected the code. */
  function Rejections(rs: seq<Result>): nat {
    if |rs| == 0 then 0 else Rejections(rs[..|rs| - 1]) + Rejection(rs[|rs| - 1])
  }

  /** The last review asked for. */
  function LastReview(rs: seq<Result>): Option<Result> {
    if |rs| == 0 then None
    else if rs[|rs| - 1].agent == Reviewer then Some(rs[|rs| - 1])
    else LastReview(rs[..|rs| - 1])
  }

  predicate Approves(review: Option<Result>) {
    review.Some? && review.value.ok && !Rejects(review.value.output)
  }

  /** n more rejections, and this review the last. */
  ghost predicate Reviews(before: State, after: State, n: nat, last: Option<Result>) {
    Rejections(after.results) == Rejections(before.results) + n && LastReview(after.results) == last
  }

  lemma OneCallReviews(env: Env, st: State, agent: Agent, attempt: nat)
    ensures var called := Called(env, st, agent, attempt);
            && |called.results| > 0 && Last(called).agent == agent
            && (!Last(called).ok ==> Rejection(Last(called)) == 0)
            && (agent != Reviewer ==> Reviews(st, called, 0, LastReview(st.results)))
            && (agent == Reviewer ==> Reviews(st, called, Rejection(Last(called)), Some(Last(called))))
  {
    hide Rejects;
    var called := Called(env, st, agent, attempt);
    assert called.results[..|st.results|] == st.results;
  }

  lemma {:induction false} BatchReviews(env: Env, st: State, agent: Agent, attempt: nat)
    requires attempt < env.maxRetries
    ensures var st' := Retry(env, st, agent, attempt);
            && (agent != Reviewer ==> Reviews(st, st', 0, LastReview(st.results)))
            && (agent == Reviewer ==> Reviews(st, st', Rejection(Last(st')), Some(Last(st'))))
    decreases env.maxRetries - attempt
  {
    hide Rejection, Called;
    var called := Called(env, st, agent, attempt);
    OneCallReviews(env, st, agent, attempt);
    if !Last(called).ok && attempt + 1 < env.maxRetries {
      BatchReviews(env, called, agent, attempt + 1);
    }
  }

  lemma {:induction false} CodeGenReviewsNothing(env: Env, st: State, attempt: nat)
    requires attempt < env.maxRetries
    ensures Reviews(st, CodeGenLoop(env, st, attempt).0, 0, LastReview(st.results))
    decreases env.maxRetries - attempt
  {
    hide Writable, Raises, Overlay, Targets, Restored, Called;
    var ran := Retry(env, CleanedUp(env, st), CodeGen, 0);
    BatchReviews(env, CleanedUp(env, st), CodeGen, 0);
    if Last(ran).ok && !Raises(env, ran) && env.tests(ran.tests) == Failing && attempt + 1 < env.maxRetries {
      CodeGenReviewsNothing(env, Wrote(env, ran), attempt + 1);
    }
  }

  lemma {:induction false} ReworkReviewsNothing(env: Env, st: State, attempt: nat)
    requires attempt < env.maxRetries
    ensures Reviews(st, ReworkLoop(env, st, attempt).0, 0, LastReview(st.results))
    decreases env.maxRetries - attempt
  {
    hide Writable, Raises, Overlay, Called;
    var ran := Retry(env, st, CodeGen, 0);
    BatchReviews(env, st, CodeGen, 0);
    if !Raises(env, ran) && env.tests(ran.tests) == Failing && attempt + 1 < env.maxRetries {
      ReworkReviewsNothing(env, Rewrote(env, ran), attempt + 1);
    }
  }

  /** n rejections of which, within so many reviews, the last one approves unless all were used up. */
  ghost predicate Judged(before: State, after: State, reviews: nat) {
    var n := Rejections(after.results) - Rejections(before.results);
    0 <= n <= reviews && (Approves(LastReview(after.results)) <==> n < reviews)
  }

  /** The review loop lets code through either approved or rejected every time it could be. */
  lemma {:induction false} ApprovedUnlessAlwaysRejected(env: Env, st: State, iteration: nat)
    requires iteration < env.maxRetries && ReviewLoop(env, st, iteration).1.Proceed?
    ensures Judged(st, ReviewLoop(env, st, iteration).0, env.maxRetries - iteration)
    decreases env.maxRetries - iteration
  {
    hide Called, Rejects, ReworkLoop;
    var ran := Retry(env, st, Reviewer, 0);
    BatchReviews(env, st, Reviewer, 0);
    RetryOnlyCalls(env, st, Reviewer, 0);
    if Rejects(Last(ran).output) {
      ReworkReviewsNothing(env, ran, 0);
      if iteration + 1 < env.maxRetries {
        ApprovedUnlessAlwaysRejected(env, ReworkLoop(env, ran, 0).0, iteration + 1);
      }
    }
  }

  lemma NothingReviewed(tree: Tree)
    ensures Rejections(Begin(tree).results) == 0
  {
  }

  lemma ConcludeReviewsNothing(env: Env, st: State)
    requires env.maxRetries > 0
    ensures Reviews(st, Conclude(env, st).0, 0, LastReview(st.results))
  {
    hide Called, Writable, Raises, Overlay;
    var ready := st.(tests := st.tests + 1);
    BatchReviews(env, ready, Tester, 0);
    BatchReviews(env, Retry(env, ready, Tester, 0), DocWriter, 0);
  }

  /**
   * In a whole run that reaches its tester, and so in every successful one, the last review approves
   * the code exactly when fewer reviews than there may be rejected it.
   */
  lemma RunApprovedUnlessAlwaysRejected(env: Env, tree: Tree)
    requires ReachesTester(env, tree)
    ensures var rs := Run(env, tree).0.results;
            Rejections(rs) <= env.maxRetries && (Approves(LastReview(rs)) <==> Rejections(rs) < env.maxRetries)
  {
    EndsBeforeTester(env, tree);
    NothingReviewed(tree);
    BatchReviews(env, Begin(tree), Architect, 0);
    hide Run, Conclude, Retry, Approves, CodeGenLoop, Rejections, LastReview;
    CodeGenReviewsNothing(env, Designed(env, tree), 0);
    ApprovedUnlessAlwaysRejected(env, Coded(env, tree).0, 0);
    ConcludeReviewsNothing(env, Reviewed(env, tree).0);
  }

  // ---------- Whether the code passed its tests ----------

  /** All the test runs a rework begun in this state could make fail. */
  ghost predicate UsedUp(env: Env, begun: State, tries: nat) {
    forall j :: begun.tests <= j < begun.tests + tries ==> env.tests(j) == Failing
  }

  lemma OneTestMore(env: Env, begun: State, next: State, tries: nat)
    requires next.tests == begun.tests + 1 && tries > 0
    ensures UsedUp(env, begun, tries) <==> env.tests(begun.tests) == Failing && UsedUp(env, next, tries - 1)
  {
    if UsedUp(env, begun, tries) {
      assert env.tests(begun.tests) == Failing;
    }
  }

  /** A rework hands on code that failed its last test exactly when all its test runs failed. */
  lemma {:induction false} ReworkFailsExactly(env: Env, st: State, attempt: nat)
    requires attempt < env.maxRetries && ReworkLoop(env, st, attempt).1.Proceed?
    ensures var st' := ReworkLoop(env, st, attempt).0;
            && st.tests < st'.tests <= st.tests + env.maxRetries - attempt
            && (env.tests(st'.tests - 1) == Failing <==> UsedUp(env, st, env.maxRetries - attempt))
            && (UsedUp(env, st, env.maxRetries - attempt) ==> st'.tests == st.tests + env.maxRetries - attempt)
    decreases env.maxRetries - attempt
  {
    hide Writable, Raises, Overlay, Called, UsedUp;
    var ran := Retry(env, st, CodeGen, 0);
    RetryOnlyCalls(env, st, CodeGen, 0);
    OneTestMore(env, st, Rewrote(env, ran), env.maxRetries - attempt);
    if env.tests(ran.tests) == Failing && attempt + 1 < env.maxRetries {
      ReworkFailsExactly(env, Rewrote(env, ran), attempt + 1);
    } else {
      NoTestsLeft(env, Rewrote(env, ran));
    }
  }

  lemma NoTestsLeft(env: Env, st: State)
    ensures UsedUp(env, st, 0)
  {
  }

  lemma {:induction false} CodedCodePassed(env: Env, st: State, attempt: nat)
    requires attempt < env.maxRetries && CodeGenLoop(env, st, attempt).1.Proceed?
    ensures var st' := CodeGenLoop(env, st, attempt).0; st'.tests > 0 && env.tests(st'.tests - 1) != Failing
    decreases env.maxRetries - attempt
  {
    hide Writable, Raises, Overlay, Targets, Restored, Called;
    var ran := Retry(env, CleanedUp(env, st), CodeGen, 0);
    if env.tests(ran.tests) == Failing && attempt + 1 < env.maxRetries {
      CodedCodePassed(env, Wrote(env, ran), attempt + 1);
    }
  }

  /** The state in which the review loop last began a rework. */
  function LastRework(env: Env, st: State, iteration: nat): Option<State>
    requires iteration < env.maxRetries
    decreases env.maxRetries - iteration
  {
    var ran := Retry(env, st, Reviewer, 0);
    if !Last(ran).ok || !Rejects(Last(ran).output) then None
    else
      var reworked := ReworkLoop(env, ran, 0).0;
      var later := if iteration + 1 < env.maxRetries then LastRework(env, reworked, iteration + 1) else None;
      if later.Some? then later else Some(ran)
  }

  /** The review loop hands on code that failed its last test exactly when its last rework used up all its tries. */
  lemma {:induction false} ReviewFailsExactly(env: Env, st: State, iteration: nat)
    requires iteration < env.maxRetries && ReviewLoop(env, st, iteration).1.Proceed?
    requires st.tests > 0
    ensures var st', begun := ReviewLoop(env, st, iteration).0, LastRework(env, st, iteration);
            && st'.tests >= st.tests
            && if begun.None? then st'.tests == st.tests
               else && (env.tests(st'.tests - 1) == Failing <==> UsedUp(env, begun.value, env.maxRetries))
                    && (UsedUp(env, begun.value, env.maxRetries) ==> st'.tests == begun.value.tests + env.maxRetries)
    decreases env.maxRetries - iteration
  {
    hide Called, Rejects, ReworkLoop, UsedUp;
    var ran := Retry(env, st, Reviewer, 0);
    RetryOnlyCalls(env, st, Reviewer, 0);
    if Rejects(Last(ran).output) {
      ReworkFailsExactly(env, ran, 0);
      if iteration + 1 < env.maxRetries {
        ReviewFailsExactly(env, ReworkLoop(env, ran, 0).0, iteration + 1);
      }
    }
  }

  /** The review loop reworks exactly when a review rejects. */
  lemma ReworksWhenRejected(env: Env, st: State, iteration: nat)
    requires iteration < env.maxRetries && ReviewLoop(env, st, iteration).1.Proceed?
    ensures LastRework(env, st, iteration).Some?
       <==> Rejections(ReviewLoop(env, st, iteration).0.results) > Rejections(st.results)
  {
    hide Called, Rejects, ReworkLoop;
    var ran := Retry(env, st, Reviewer, 0);
    BatchReviews(env, st, Reviewer, 0);
    RetryOnlyCalls(env, st, Reviewer, 0);
    if Rejects(Last(ran).output) {
      ReworkReviewsNothing(env, ran, 0);
      if iteration + 1 < env.maxRetries {
        ApprovedUnlessAlwaysRejected(env, ReworkLoop(env, ran, 0).0, iteration + 1);
      }
    }
  }

  lemma HandedOnWithTests(env: Env, tree: Tree)
    requires ReachesTester(env, tree)
    ensures var handed, begun := Reviewed(env, tree).0, LastRework(env, Coded(env, tree).0, 0);
            && handed.tests > 0
            && (env.tests(handed.tests - 1) == Failing <==> begun.Some? && UsedUp(env, begun.value, env.maxRetries))
            && (begun.Some? && UsedUp(env, begun.value, env.maxRetries)
                ==> handed.tests == begun.value.tests + env.maxRetries)
  {
    hide Retry, CodeGenLoop, ReviewLoop, UsedUp, LastRework;
    CodedCodePassed(env, Designed(env, tree), 0);
    ReviewFailsExactly(env, Coded(env, tree).0, 0);
  }

  lemma HandedOnWithRejections(env: Env, tree: Tree)
    requires ReachesTester(env, tree)
    ensures LastRework(env, Coded(env, tree).0, 0).Some? <==> Rejections(Run(env, tree).0.results) > 0
  {
    EndsBeforeTester(env, tree);
    NothingReviewed(tree);
    BatchReviews(env, Begin(tree), Architect, 0);
    hide Run, Conclude, Retry, CodeGenLoop, Rejections, LastReview, LastRework;
    CodeGenReviewsNothing(env, Designed(env, tree), 0);
    ReworksWhenRejected(env, Coded(env, tree).0, 0);
    ConcludeReviewsNothing(env, Reviewed(env, tree).0);
  }

  /**
   * In a run that reaches its tester, and so in every successful one, the code given to the tester
   * failed its last test exactly when some review rejected it and the last rework used up all its
   * tries; as many failures as there may be retries then come right before the tester's own test run.
   */
  lemma RunFailsTestsExactly(env: Env, tree: Tree)
    requires ReachesTester(env, tree)
    ensures var coded, handed := Coded(env, tree).0, Reviewed(env, tree).0;
            var begun := LastRework(env, coded, 0);
            && handed.tests > 0 && Run(env, tree).0.tests == handed.tests + 1
            && (begun.Some? <==> Rejections(Run(env, tree).0.results) > 0)
            && (env.tests(handed.tests - 1) == Failing <==> begun.Some? && UsedUp(env, begun.value, env.maxRetries))
            && (begun.Some? && UsedUp(env, begun.value, env.maxRetries)
                ==> handed.tests == begun.value.tests + env.maxRetries)
  {
    EndsBeforeTester(env, tree);
    HandedOnWithTests(env, tree);
    HandedOnWithRejections(env, tree);
    hide Run, Conclude, UsedUp, Rejections, ReachesTester, Coded, Reviewed, LastRework;
    ConcludeTestsOnce(env, Reviewed(env, tree).0);
  }

  lemma ConcludeTestsOnce(env: Env, st: State)
    requires env.maxRetries > 0
    ensures Conclude(env, st).0.tests == st.tests + 1
  {
    hide Called, Writable, Raises, Overlay;
    var ready := st.(tests := st.tests + 1);
    RetryOnlyCalls(env, ready, Tester, 0);
    RetryOnlyCalls(env, Retry(env, ready, Tester, 0), DocWriter, 0);
  }
}
