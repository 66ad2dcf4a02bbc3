/**
 * What the pipeline leaves in the working tree: its code stage starts every attempt from the
 * initial tree, while the review loop and the documentation stage write over whatever is there.
 */
module FinalTree {
  import opened BlockParser
  import opened WorkTree
  import opened Stages
  import opened Traces

  /** Every file is tracked and unmodified. */
  ghost predicate Tidy(tree: Tree, index: Tree) {
    forall p :: At(tree, p) == At(index, p)
  }

  lemma TidyIsRestored(tree: Tree, initial: Tree, index: Tree, touched: set<FilePath>)
    requires Tidy(initial, index) && ChangedOnly(tree, initial, touched)
    ensures Restored(tree, index, touched) == initial
  {
    CleanUpExact(tree, initial, index, touched);
  }

  lemma WroteChangesTouched(env: Env, initial: Tree, st: State)
    requires |st.results| > 0 && st.tree == initial
    ensures Wrote(env, st).tree == Overlay(initial, Writable(env, st))
    ensures !Raises(env, st) ==> ChangedOnly(Wrote(env, st).tree, initial, Wrote(env, st).touched)
  {
    hide Writable, Raises, Overlay, Targets;
    OverlayChangesTargets(initial, Writable(env, st));
  }

  /** From a tidy tree, every attempt begins with the initial tree back in place. */
  lemma AttemptBeginsClean(env: Env, initial: Tree, st: State)
    requires env.maxRetries > 0
    requires Tidy(initial, env.index) && ChangedOnly(st.tree, initial, st.touched)
    ensures var ran := Retry(env, CleanedUp(env, st), CodeGen, 0);
            && CleanedUp(env, st).tree == initial && ran.tree == initial
            && Wrote(env, ran).tree == Overlay(initial, Writable(env, ran))
            && (!Raises(env, ran) ==> ChangedOnly(Wrote(env, ran).tree, initial, Wrote(env, ran).touched))
  {
    hide Writable, Raises, Overlay, Targets, Restored, Called, Tidy, ChangedOnly;
    TidyIsRestored(st.tree, initial, env.index, st.touched);
    RetryOnlyCalls(env, CleanedUp(env, st), CodeGen, 0);
    WroteChangesTouched(env, initial, Retry(env, CleanedUp(env, st), CodeGen, 0));
  }

  /**
   * However many attempts it took, the code stage leaves the initial tree overlaid with exactly the
   * last attempt's files, as far as they could be written; if the agent gave no answer, it leaves
   * the initial tree.
   */
  lemma {:induction false} OnlyLastAttemptRemains(env: Env, initial: Tree, st: State, attempt: nat)
    requires attempt < env.maxRetries
    requires Tidy(initial, env.index) && ChangedOnly(st.tree, initial, st.touched)
    ensures var (st', verdict) := CodeGenLoop(env, st, attempt);
            && |st'.results| > 0
            && (verdict.AgentFailed? ==> st'.tree == initial)
            && (!verdict.AgentFailed? ==> Last(st').ok && st'.tree == Overlay(initial, Writable(env, st')))
            && (verdict.Raised? <==> Last(st').ok && Raises(env, st'))
    decreases env.maxRetries - attempt
  {
    hide Writable, Raises, Overlay, Targets, Restored, Called, Tidy, ChangedOnly;
    var ran := Retry(env, CleanedUp(env, st), CodeGen, 0);
    AttemptBeginsClean(env, initial, st);
    SameAnswer(env, ran);
    if Last(ran).ok && !Raises(env, ran) && env.tests(ran.tests) == Failing && attempt + 1 < env.maxRetries {
      OnlyLastAttemptRemains(env, initial, Wrote(env, ran), attempt + 1);
    }
  }

  lemma WritableInFull(env: Env, st: State)
    requires |st.results| > 0 && !Raises(env, st)
    ensures Writable(env, st) == FindBlocks(Last(st).output)
  {
    hide FindBlocks, Contained;
  }

  // ---------- After the code stage ----------

  predicate Writes(agent: Agent) { agent == CodeGen || agent == DocWriter }

  function Written(r: Result): seq<Block> {
    if Writes(r.agent) then FindBlocks(r.output) else []
  }

  /** The blocks of all the answers, from the k-th result on, that are written to the tree. */
  function BlocksSince(rs: seq<Result>, k: nat): seq<Block> {
    if |rs| <= k then []
    else BlocksSince(rs[..|rs| - 1], k) + Written(rs[|rs| - 1])
  }

  lemma OneResultMore(rs: seq<Result>, r: Result, k: nat)
    requires k <= |rs|
    ensures BlocksSince(rs + [r], k) == BlocksSince(rs, k) + Written(r)
  {
    assert (rs + [r])[..|rs|] == rs;
  }

  /** Results were added that together write what r alone does. */
  ghost predicate Added(before: seq<Result>, after: seq<Result>, k: nat, r: Result) {
    k <= |before| < |after| && BlocksSince(after, k) == BlocksSince(before, k) + Written(r)
  }

  lemma OneCallMore(env: Env, st: State, agent: Agent, attempt: nat, k: nat)
    requires k <= |st.results|
    ensures var called := Called(env, st, agent, attempt);
            && k < |called.results| && Last(called).agent == agent && Added(st.results, called.results, k, Last(called))
            && (!Last(called).ok ==> Written(Last(called)) == [])
  {
    hide FindBlocks;
    NothingInNothing();
    OneResultMore(st.results, Last(Called(env, st, agent, attempt)), k);
  }

  lemma AddedAfterFailure(before: seq<Result>, between: seq<Result>, after: seq<Result>, k: nat, failed: Result,
                          r: Result)
    requires Added(before, between, k, failed) && Written(failed) == [] && Added(between, after, k, r)
    ensures Added(before, after, k, r)
  {
  }

  /** Of a batch, at most its last answer is written. */
  lemma {:induction false} OneBatchMore(env: Env, st: State, agent: Agent, attempt: nat, k: nat)
    requires attempt < env.maxRetries && k <= |st.results|
    ensures var st' := Retry(env, st, agent, attempt);
            Last(st').agent == agent && Added(st.results, st'.results, k, Last(st'))
    decreases env.maxRetries - attempt
  {
    hide Written, Added, Called;
    var called := Called(env, st, agent, attempt);
    OneCallMore(env, st, agent, attempt, k);
    if !Last(called).ok && attempt + 1 < env.maxRetries {
      OneBatchMore(env, called, agent, attempt + 1, k);
      var st' := Retry(env, called, agent, attempt + 1);
      AddedAfterFailure(st.results, called.results, st'.results, k, Last(called), Last(st'));
    }
  }

  /** The tree is the initial one with everything written since the k-th result laid over it. */
  ghost predicate Laid(st: State, initial: Tree, k: nat) {
    k < |st.results| && st.tree == Overlay(initial, BlocksSince(st.results, k))
  }

  /** A batch of an agent whose answer is then written over the tree, or not. */
  lemma BatchStaysLaid(env: Env, st: State, agent: Agent, initial: Tree, k: nat)
    requires env.maxRetries > 0 && Laid(st, initial, k)
    ensures var st' := Retry(env, st, agent, 0);
            && (!Writes(agent) ==> Laid(st', initial, k))
            && (Writes(agent) ==> Laid(st'.(tree := Overlay(st'.tree, FindBlocks(Last(st').output))), initial, k))
  {
    hide Called, FindBlocks, Overlay, BlocksSince;
    var st' := Retry(env, st, agent, 0);
    RetryOnlyCalls(env, st, agent, 0);
    OneBatchMore(env, st, agent, 0, k);
    if Writes(agent) {
      OverlayTwice(initial, BlocksSince(st.results, k), FindBlocks(Last(st').output));
    } else {
      assert BlocksSince(st'.results, k) == BlocksSince(st.results, k);
    }
  }

  lemma {:induction false} ReworkStaysLaid(env: Env, st: State, attempt: nat, initial: Tree, k: nat)
    requires attempt < env.maxRetries && Laid(st, initial, k)
    ensures var (st', verdict) := ReworkLoop(env, st, attempt); verdict.Proceed? ==> Laid(st', initial, k)
    decreases env.maxRetries - attempt
  {
    hide Called, FindBlocks, Overlay, BlocksSince, Writable, Raises;
    var ran := Retry(env, st, CodeGen, 0);
    BatchStaysLaid(env, st, CodeGen, initial, k);
    if !Raises(env, ran) {
      WritableInFull(env, ran);
      assert Laid(Rewrote(env, ran), initial, k);
      if env.tests(ran.tests) == Failing && attempt + 1 < env.maxRetries {
        ReworkStaysLaid(env, Rewrote(env, ran), attempt + 1, initial, k);
      }
    }
  }

  lemma {:induction false} ReviewStaysLaid(env: Env, st: State, iteration: nat, initial: Tree, k: nat)
    requires iteration < env.maxRetries && Laid(st, initial, k)
    ensures var (st', verdict) := ReviewLoop(env, st, iteration); verdict.Proceed? ==> Laid(st', initial, k)
    decreases env.maxRetries - iteration
  {
    hide Called, FindBlocks, Overlay, BlocksSince, Rejects, Laid, Writable, Raises;
    var ran := Retry(env, st, Reviewer, 0);
    BatchStaysLaid(env, st, Reviewer, initial, k);
    if Last(ran).ok && Rejects(Last(ran).output) {
      ReworkStaysLaid(env, ran, 0, initial, k);
      var (reworked, rework) := ReworkLoop(env, ran, 0);
      if !rework.Raised? && iteration + 1 < env.maxRetries {
        ReviewStaysLaid(env, reworked, iteration + 1, initial, k);
      }
    }
  }

  lemma ConcludeStaysLaid(env: Env, st: State, initial: Tree, k: nat)
    requires env.maxRetries > 0 && Laid(st, initial, k)
    ensures var (st', message) := Conclude(env, st); message.Success? ==> Laid(st', initial, k)
  {
    hide Called, FindBlocks, Overlay, BlocksSince, Writable, Raises;
    var ready := st.(tests := st.tests + 1);
    BatchStaysLaid(env, ready, Tester, initial, k);
    hide Laid;
    var tested := Retry(env, ready, Tester, 0);
    if Last(tested).ok {
      BatchStaysLaid(env, tested, DocWriter, initial, k);
      var documented := Retry(env, tested, DocWriter, 0);
      if !Raises(env, documented) { WritableInFull(env, documented); }
    }
  }

  lemma LastAnswerIsLaid(st: State, initial: Tree)
    requires |st.results| > 0 && Last(st).agent == CodeGen
    requires st.tree == Overlay(initial, FindBlocks(Last(st).output))
    ensures Laid(st, initial, |st.results| - 1)
  {
    hide FindBlocks, Overlay;
    var k := |st.results| - 1;
    assert BlocksSince(st.results[..k], k) == [];
    assert BlocksSince(st.results, k) == FindBlocks(Last(st).output);
  }

  lemma CodedIsLaid(env: Env, tree: Tree)
    requires env.maxRetries > 0 && Tidy(tree, env.index)
    requires Coded(env, tree).1.Proceed?
    ensures var coded := Coded(env, tree).0;
            && |coded.results| > 0 && Last(coded).agent == CodeGen && Last(coded).ok
            && Laid(coded, tree, |coded.results| - 1)
  {
    hide Tidy, FindBlocks, Overlay, Called, Laid, Writable, Raises;
    var designed := Designed(env, tree);
    RetryOnlyCalls(env, Begin(tree), Architect, 0);
    assert ChangedOnly(designed.tree, tree, designed.touched);
    hide ChangedOnly;
    OnlyLastAttemptRemains(env, tree, designed, 0);
    CodeStageEndsInCode(env, designed, 0);
    WritableInFull(env, Coded(env, tree).0);
    LastAnswerIsLaid(Coded(env, tree).0, tree);
  }

  /**
   * A successful run over a tidy tree leaves the initial tree overlaid with the code stage's last
   * answer and with every code or documentation answer after it: nothing of the code stage's
   * earlier attempts is left, and nothing a later answer wrote is cleaned away.
   */
  lemma SuccessTree(env: Env, tree: Tree)
    requires Tidy(tree, env.index) && Run(env, tree).1.Success?
    ensures var coded, final := Coded(env, tree).0, Run(env, tree).0;
            && 0 < |coded.results| <= |final.results| && Last(coded).agent == CodeGen && Last(coded).ok
            && final.tree == Overlay(tree, BlocksSince(final.results, |coded.results| - 1))
  {
    hide Tidy, FindBlocks, Overlay, BlocksSince, Called, Conclude, Laid;
    CodedIsLaid(env, tree);
    var coded := Coded(env, tree).0;
    var k := |coded.results| - 1;
    ReviewStaysLaid(env, coded, 0, tree, k);
    var reviewed := ReviewLoop(env, coded, 0).0;
    ConcludeStaysLaid(env, reviewed, tree, k);
    assert Run(env, tree).0 == Conclude(env, reviewed).0;
    LaidIsOverlay(Run(env, tree).0, tree, k);
  }

  lemma LaidIsOverlay(st: State, initial: Tree, k: nat)
    requires Laid(st, initial, k)
    ensures k < |st.results|
    ensures st.tree == Overlay(initial, BlocksSince(st.results, k))
  {
  }

  // ---------- What a clean-up covers ----------

  lemma TargetsOfBoth(a: seq<Block>, b: seq<Block>)
    ensures Targets(a + b) == Targets(a) + Targets(b)
  {
    hide Contained, Resolve;
    forall p | p in Targets(a) + Targets(b) ensures p in Targets(a + b) {
      if p in Targets(a) {
        var i :| 0 <= i < |a| && Contained(a[i].path) && Resolve(a[i].path) == p;
        assert (a + b)[i] == a[i];
      } else {
        var i :| 0 <= i < |b| && Contained(b[i].path) && Resolve(b[i].path) == p;
        assert (a + b)[|a| + i] == b[i];
      }
    }
  }

  /** Everything written since the k-th result is down for the next clean-up, and nothing else new is. */
  ghost predicate AllTouched(st: State, before: set<FilePath>, k: nat) {
    k <= |st.results| && st.touched == before + Targets(BlocksSince(st.results, k))
  }

  lemma BatchTouches(env: Env, st: State, before: set<FilePath>, k: nat)
    requires env.maxRetries > 0 && AllTouched(st, before, k)
    ensures var ran := Retry(env, CleanedUp(env, st), CodeGen, 0);
            && (!Last(ran).ok ==> AllTouched(ran, before, k))
            && (!Raises(env, ran) ==> AllTouched(Wrote(env, ran), before, k))
  {
    hide Called, Overlay, Targets, BlocksSince, Restored, Raises, Writable;
    var clean := CleanedUp(env, st);
    var ran := Retry(env, clean, CodeGen, 0);
    RetryOnlyCalls(env, clean, CodeGen, 0);
    OneBatchMore(env, clean, CodeGen, 0, k);
    TargetsOfBoth(BlocksSince(st.results, k), FindBlocks(Last(ran).output));
    if !Raises(env, ran) { WritableInFull(env, ran); }
    if !Last(ran).ok { NothingOnFailure(env, clean); }
  }

  lemma NothingOnFailure(env: Env, st: State)
    requires env.maxRetries > 0 && !Last(Retry(env, st, CodeGen, 0)).ok
    ensures FindBlocks(Last(Retry(env, st, CodeGen, 0)).output) == [] && Targets([]) == {}
  {
    hide FindBlocks, Targets, Called, Retry;
    FailedSaysNothing(env, st, CodeGen);
    NothingInNothing();
    NoTargets();
  }

  /** However many attempts the code stage takes, all their files are down for clean-up, not only the last one's. */
  lemma {:induction false} AllAttemptsTouched(env: Env, st: State, attempt: nat, before: set<FilePath>, k: nat)
    requires attempt < env.maxRetries && AllTouched(st, before, k)
    ensures var (st', verdict) := CodeGenLoop(env, st, attempt); !verdict.Raised? ==> AllTouched(st', before, k)
    decreases env.maxRetries - attempt
  {
    hide Writable, Raises, Overlay, Targets, Restored, Called, AllTouched;
    var ran := Retry(env, CleanedUp(env, st), CodeGen, 0);
    BatchTouches(env, st, before, k);
    if Last(ran).ok && !Raises(env, ran) && env.tests(ran.tests) == Failing && attempt + 1 < env.maxRetries {
      AllAttemptsTouched(env, Wrote(env, ran), attempt + 1, before, k);
    }
  }
}
