/**
 * The longest run: every agent completes only on its last try, the code stage's tests pass only on
 * its last attempt, every review rejects and every test of the rework fails.
 */
module LongestRun {
  import opened BlockParser
  import opened Stages
  import opened Traces
  import opened WorkTree
  import opened Wrappers

  /** The last of each r successive calls. */
  predicate EndsRound(n: nat, r: nat)
    requires r > 0
  {
    if n < r then n == r - 1 else EndsRound(n - r, r)
  }

  lemma {:induction false} EndsRoundExactly(q: nat, a: nat, r: nat)
    requires a < r
    ensures EndsRound(Rounds(q, r) + a, r) <==> a == r - 1
  {
    if q > 0 { EndsRoundExactly(q - 1, a, r); }
  }

  function Slowest(r: nat, index: Tree): Env
    requires r > 0
  {
    Env((n: nat) => if EndsRound(n, r) then Some(REJECT) else None,
        (n: nat) => if n == r - 1 then Passed else Failing,
        (n: nat) => None, index, r)
  }

  predicate Stands(st: State, r: nat, rounds: nat, tests: nat) {
    |st.results| == Rounds(rounds, r) && st.tests == tests
  }

  /** The answer a batch ended with. */
  predicate Answered(st: State) {
    |st.results| > 0 && Last(st).ok && Last(st).output == REJECT
  }

  lemma CallTakes(r: nat, index: Tree, st: State, agent: Agent, q: nat, attempt: nat)
    requires attempt < r && |st.results| == Rounds(q, r) + attempt
    ensures var called := Called(Slowest(r, index), st, agent, attempt);
            && |called.results| == |st.results| + 1 && called.tests == st.tests
            && (Last(called).ok <==> attempt == r - 1) && (Last(called).ok ==> Answered(called))
  {
    hide Rounds, EndsRound;
    EndsRoundExactly(q, attempt, r);
  }

  lemma {:induction false} RetryTakesRound(r: nat, index: Tree, st: State, agent: Agent, q: nat, attempt: nat)
    requires attempt < r && |st.results| == Rounds(q, r) + attempt
    ensures var st' := Retry(Slowest(r, index), st, agent, attempt); Answered(st') && Stands(st', r, q + 1, st.tests)
    decreases r - attempt
  {
    hide EndsRound, Called, Answered;
    CallTakes(r, index, st, agent, q, attempt);
    if attempt + 1 < r {
      RetryTakesRound(r, index, Called(Slowest(r, index), st, agent, attempt), agent, q, attempt + 1);
    }
  }

  lemma {:induction false} CodeGenTakes(r: nat, index: Tree, st: State, q: nat, attempt: nat)
    requires attempt < r && Stands(st, r, q, attempt)
    ensures var (st', verdict) := CodeGenLoop(Slowest(r, index), st, attempt);
            verdict.Proceed? && Stands(st', r, q + r - attempt, r)
    decreases r - attempt
  {
    hide Called, Restored, Overlay, FindBlocks, Targets, EndsRound, Rounds;
    var env := Slowest(r, index);
    var ran := Retry(env, CleanedUp(env, st), CodeGen, 0);
    RetryTakesRound(r, index, CleanedUp(env, st), CodeGen, q, 0);
    if attempt + 1 < r { CodeGenTakes(r, index, Wrote(env, ran), q + 1, attempt + 1); }
  }

  lemma {:induction false} ReworkTakes(r: nat, index: Tree, st: State, q: nat, attempt: nat)
    requires attempt < r && Stands(st, r, q, st.tests) && st.tests >= r
    ensures var (st', verdict) := ReworkLoop(Slowest(r, index), st, attempt);
            verdict.Proceed? && Stands(st', r, q + r - attempt, st.tests + r - attempt)
    decreases r - attempt
  {
    hide Called, Overlay, FindBlocks, Targets, EndsRound, Rounds;
    var env := Slowest(r, index);
    var ran := Retry(env, st, CodeGen, 0);
    RetryTakesRound(r, index, st, CodeGen, q, 0);
    if attempt + 1 < r { ReworkTakes(r, index, Rewrote(env, ran), q + 1, attempt + 1); }
  }

  lemma {:induction false} ReviewTakes(r: nat, index: Tree, st: State, q: nat, iteration: nat)
    requires iteration < r && Stands(st, r, q, st.tests) && st.tests >= r
    ensures var (st', verdict) := ReviewLoop(Slowest(r, index), st, iteration);
            verdict.Proceed? && Stands(st', r, q + Rounds(r - iteration, r + 1), st'.tests)
    decreases r - iteration
  {
    hide Called, EndsRound, ReworkLoop, Rejects;
    var env := Slowest(r, index);
    var ran := Retry(env, st, Reviewer, 0);
    RetryTakesRound(r, index, st, Reviewer, q, 0);
    RejectIsRejected();
    ReworkTakes(r, index, ran, q + 1, 0);
    var reworked := ReworkLoop(env, ran, 0).0;
    if iteration + 1 < r { ReviewTakes(r, index, reworked, q + 1 + r, iteration + 1); }
  }

  lemma RunTakes(r: nat, index: Tree, tree: Tree)
    requires r > 0
    ensures var (st, message) := Run(Slowest(r, index), tree);
            message.Success? && |st.results| == Rounds(1 + r + Rounds(r, r + 1) + 2, r)
  {
    hide Called, EndsRound, CodeGenLoop, ReviewLoop, Rounds, FindBlocks, Overlay;
    var env := Slowest(r, index);
    assert Stands(Begin(tree), r, 0, 0) by { NoRounds(r); }
    RetryTakesRound(r, index, Begin(tree), Architect, 0, 0);
    var designed := Retry(env, Begin(tree), Architect, 0);
    CodeGenTakes(r, index, designed, 1, 0);
    var coded := CodeGenLoop(env, designed, 0).0;
    ReviewTakes(r, index, coded, 1 + r, 0);
    var reviewed := ReviewLoop(env, coded, 0).0;
    var q := 1 + r + Rounds(r, r + 1);
    var ready := reviewed.(tests := reviewed.tests + 1);
    RetryTakesRound(r, index, ready, Tester, q, 0);
    RetryTakesRound(r, index, Retry(env, ready, Tester, 0), DocWriter, q + 1, 0);
  }

  lemma NoRounds(r: nat)
    ensures Rounds(0, r) == 0
  {
  }

  lemma Cubic(r: int)
    ensures (1 + r + r * (r + 1) + 2) * r == r * r * r + 2 * (r * r) + 3 * r
  {
    var square := r * r;
    assert r * (r + 1) == square + r;
    assert (square + 2 * r + 3) * r == square * r + 2 * square + 3 * r;
  }

  /** The bound on agent calls is reached: for every R > 0 some run makes R^3 + 2R^2 + 3R, and succeeds. */
  lemma CallBoundIsReached(r: nat, tree: Tree)
    requires r > 0
    ensures var (st, message) := Run(Slowest(r, tree), tree);
            message.Success? && |st.results| == r * r * r + 2 * (r * r) + 3 * r
  {
    hide Run, Rounds;
    RunTakes(r, tree, tree);
    RoundsIsProduct(r, r + 1);
    var q := Rounds(r, r + 1);
    RoundsIsProduct(1 + r + q + 2, r);
    Cubic(r);
  }
}
