/**
 * The traffic analyzer's spike detector: a bounded history of throughput samples, and a sample
 * flagged when it lies more than three standard deviations above the history's mean.
 */
module Detector {

  const BASELINE := 5
  const MAX_HISTORY := 60
  const MIN_TPS := 5.0

  function Sum(xs: seq<real>): real {
    if |xs| == 0 then 0.0 else Sum(xs[..|xs| - 1]) + xs[|xs| - 1]
  }

  function Square(x: real): real { x * x }

  /** The sum of the squared distances of the samples from c. */
  function Spread(xs: seq<real>, c: real): real {
    if |xs| == 0 then 0.0 else Spread(xs[..|xs| - 1], c) + Square(xs[|xs| - 1] - c)
  }

  function Mean(xs: seq<real>): real
    requires |xs| > 0
  {
    Sum(xs) / |xs| as real
  }

  function Variance(xs: seq<real>): real
    requires |xs| > 0
  {
    Spread(xs, Mean(xs)) / |xs| as real
  }

  /** sd is the standard deviation of the samples: the nonnegative root of their variance. */
  ghost predicate IsDeviation(xs: seq<real>, sd: real)
    requires |xs| > 0
  {
    sd >= 0.0 && Square(sd) == Variance(xs)
  }

  predicate Exceeds(xs: seq<real>, sd: real, x: real)
    requires |xs| > 0
  {
    x > Mean(xs) + 3.0 * sd
  }

  /** The history after a sample: the oldest one leaves once 60 are held. */
  function Retain(history: seq<real>, tps: real): seq<real> {
    (if |history| >= MAX_HISTORY then history[1..] else history) + [tps]
  }

  ghost predicate IsSqrt(sqrt: real -> real) {
    forall v :: v >= 0.0 ==> sqrt(v) >= 0.0 && Square(sqrt(v)) == v
  }

  /** How a sample is judged against a history: not at all before there is a baseline, then by its deviation. */
  ghost predicate Flagged(history: seq<real>, tps: real, anomalous: bool) {
    if |history| < BASELINE then !anomalous
    else exists sd :: IsDeviation(history, sd) && (anomalous <==> Exceeds(history, sd, tps) && tps > MIN_TPS)
  }

  class Analyzer {
    var tpsHistory: seq<real>

    constructor ()
      ensures tpsHistory == []
    {
      tpsHistory := [];
    }

    /** Judge one sample against the history, then absorb it. */
    method AnalyzeTPS(tps: real, sqrt: real -> real) returns (anomalous: bool)
      requires IsSqrt(sqrt)
      modifies this
      ensures tpsHistory == Retain(old(tpsHistory), tps)
      ensures Flagged(old(tpsHistory), tps, anomalous)
    {
      if |tpsHistory| < BASELINE {
        tpsHistory := tpsHistory + [tps];
        return false;
      }

      var sum := 0.0;
      for i := 0 to |tpsHistory|
        invariant sum == Sum(tpsHistory[..i])
      {
        assert tpsHistory[..i + 1][..i] == tpsHistory[..i];
        sum := sum + tpsHistory[i];
      }
      assert tpsHistory[..|tpsHistory|] == tpsHistory;
      var mean := sum / |tpsHistory| as real;

      var varianceSum := 0.0;
      for i := 0 to |tpsHistory|
        invariant varianceSum == Spread(tpsHistory[..i], mean)
      {
        assert tpsHistory[..i + 1][..i] == tpsHistory[..i];
        varianceSum := varianceSum + Square(tpsHistory[i] - mean);
      }
      SpreadNonnegative(tpsHistory, mean);
      var stdDev := sqrt(varianceSum / |tpsHistory| as real);
      assert IsDeviation(tpsHistory, stdDev);

      var threshold := mean + 3.0 * stdDev;
      anomalous := tps > threshold && tps > MIN_TPS;

      if |tpsHistory| >= MAX_HISTORY {
        tpsHistory := tpsHistory[1..];
      }
      tpsHistory := tpsHistory + [tps];
    }
  }

  lemma {:induction false} SpreadNonnegative(xs: seq<real>, c: real)
    ensures Spread(xs, c) >= 0.0
  {
    if |xs| > 0 {
      SpreadNonnegative(xs[..|xs| - 1], c);
      SquareNonnegative(xs[|xs| - 1] - c);
    }
  }

  lemma SquareNonnegative(x: real)
    ensures Square(x) >= 0.0
  {
  }

  // ---------- What the history is ----------

  function HistoryAfter(samples: seq<real>): seq<real> {
    if |samples| == 0 then [] else Retain(HistoryAfter(samples[..|samples| - 1]), samples[|samples| - 1])
  }

  /** The last sixty of some samples, or all of them. */
  function Recent(samples: seq<real>): seq<real> {
    if |samples| <= MAX_HISTORY then samples else samples[|samples| - MAX_HISTORY..]
  }

  lemma RetainRecent(samples: seq<real>, x: real)
    ensures Retain(Recent(samples), x) == Recent(samples + [x])
  {
  }

  /** After any run the history is exactly the last sixty samples, or all of them. */
  lemma {:induction false} HistoryIsRecent(samples: seq<real>)
    ensures HistoryAfter(samples) == if |samples| <= 60 then samples else samples[|samples| - 60..]
  {
    if |samples| > 0 {
      var init, last := samples[..|samples| - 1], samples[|samples| - 1];
      HistoryIsRecent(init);
      RetainRecent(init, last);
      assert init + [last] == samples;
    }
  }

  // ---------- How many samples can exceed the threshold ----------

  /** The samples above the threshold, and the rest. */
  function Above(xs: seq<real>, t: real): seq<real> {
    if |xs| == 0 then []
    else Above(xs[..|xs| - 1], t) + if xs[|xs| - 1] > t then [xs[|xs| - 1]] else []
  }

  function NotAbove(xs: seq<real>, t: real): seq<real> {
    if |xs| == 0 then []
    else NotAbove(xs[..|xs| - 1], t) + if xs[|xs| - 1] > t then [] else [xs[|xs| - 1]]
  }

  lemma SumAppend(xs: seq<real>, x: real, c: real)
    ensures Sum(xs + [x]) == Sum(xs) + x
    ensures Spread(xs + [x], c) == Spread(xs, c) + Square(x - c)
  {
    assert (xs + [x])[..|xs|] == xs;
  }

  lemma {:induction false} SplitSums(xs: seq<real>, t: real, c: real)
    ensures |xs| == |Above(xs, t)| + |NotAbove(xs, t)|
    ensures Sum(xs) == Sum(Above(xs, t)) + Sum(NotAbove(xs, t))
    ensures Spread(xs, c) == Spread(Above(xs, t), c) + Spread(NotAbove(xs, t), c)
  {
    hide Square;
    if |xs| > 0 {
      var init, last := xs[..|xs| - 1], xs[|xs| - 1];
      SplitSums(init, t, c);
      SumAppend(Above(init, t), last, c);
      SumAppend(NotAbove(init, t), last, c);
      if last > t {
        assert Above(xs, t) == Above(init, t) + [last] && NotAbove(xs, t) == NotAbove(init, t);
      } else {
        assert Above(xs, t) == Above(init, t) && NotAbove(xs, t) == NotAbove(init, t) + [last];
      }
    }
  }

  /** The total distance of the samples from c. */
  function Offset(xs: seq<real>, c: real): real {
    if |xs| == 0 then 0.0 else Offset(xs[..|xs| - 1], c) + (xs[|xs| - 1] - c)
  }

  lemma {:induction false} OffsetIsSum(xs: seq<real>, c: real)
    ensures Offset(xs, c) == Sum(xs) - |xs| as real * c
  {
    if |xs| > 0 {
      OffsetIsSum(xs[..|xs| - 1], c);
      assert |xs| as real == (|xs| - 1) as real + 1.0;
    }
  }

  lemma OffsetAppend(xs: seq<real>, x: real, c: real)
    ensures Offset(xs + [x], c) == Offset(xs, c) + (x - c)
  {
    assert (xs + [x])[..|xs|] == xs;
  }

  lemma Distribute(a: real, b: real, c: real)
    ensures (a + b) * c == a * c + b * c
  {
  }

  /** k samples whose offset is beyond k times the gap, strictly so if there are any. */
  predicate FarBeyond(k: nat, offset: real, gap: real) {
    offset >= k as real * gap && (k > 0 ==> offset > k as real * gap)
  }

  lemma FarStep(k: nat, offset: real, x: real, t: real, c: real)
    requires FarBeyond(k, offset, t - c) && x > t
    ensures FarBeyond(k + 1, offset + (x - c), t - c)
  {
    Distribute(k as real, 1.0, t - c);
  }

  lemma NothingFar(gap: real)
    ensures FarBeyond(0, 0.0, gap)
  {
  }

  lemma {:induction false} AboveIsFar(xs: seq<real>, t: real, c: real)
    ensures FarBeyond(|Above(xs, t)|, Offset(Above(xs, t), c), t - c)
  {
    hide FarBeyond;
    if |xs| > 0 {
      var init, last := xs[..|xs| - 1], xs[|xs| - 1];
      AboveIsFar(init, t, c);
      if last > t {
        OffsetAppend(Above(init, t), last, c);
        FarStep(|Above(init, t)|, Offset(Above(init, t), c), last, t, c);
      } else {
        assert Above(xs, t) == Above(init, t);
      }
    } else {
      NothingFar(t - c);
    }
  }

  lemma PositiveFactor(m: real, x: real)
    requires m > 0.0 && m * x >= 0.0
    ensures x >= 0.0
  {
  }

  lemma CrossTerm(m: real, s: real, q: real, d: real)
    requires m > 0.0 && Square(s) <= m * q
    ensures m * Square(d) + q - 2.0 * (s * d) >= 0.0
  {
    var p, cross := m * d, m * Square(d) + q - 2.0 * (s * d);
    SquareNonnegative(p - s);
    assert Square(p - s) == Square(p) - 2.0 * (p * s) + Square(s);
    assert p * s == m * (s * d);
    assert Square(p) == m * (m * Square(d));
    assert m * cross == m * (m * Square(d)) + m * q - 2.0 * (m * (s * d));
    PositiveFactor(m, cross);
  }

  lemma CauchyStep(m: real, s: real, q: real, d: real)
    requires m >= 0.0 && q >= 0.0 && Square(s) <= m * q && (m == 0.0 ==> s == 0.0)
    ensures Square(s + d) <= (m + 1.0) * (q + Square(d))
  {
    if m > 0.0 {
      CrossTerm(m, s, q, d);
    }
    assert Square(s + d) == Square(s) + 2.0 * (s * d) + Square(d);
    Distribute(m, 1.0, q + Square(d));
    Distribute(q, Square(d), m);
  }

  /** The square of a total distance is at most the number of samples times the sum of the squared distances. */
  lemma {:induction false} Cauchy(xs: seq<real>, c: real)
    ensures Square(Offset(xs, c)) <= |xs| as real * Spread(xs, c)
  {
    hide Square;
    if |xs| > 0 {
      var init, last := xs[..|xs| - 1], xs[|xs| - 1];
      Cauchy(init, c);
      SpreadNonnegative(init, c);
      CauchyStep(|init| as real, Offset(init, c), Spread(init, c), last - c);
      assert |xs| as real == |init| as real + 1.0;
    } else {
      ZeroSquare();
    }
  }

  lemma ZeroSquare()
    ensures Square(0.0) == 0.0
  {
  }

  lemma Scale(k: real, x: real, y: real)
    requires k >= 0.0 && x <= y
    ensures k * x <= k * y
  {
  }

  /** Two groups of a and b samples whose offsets are s and -s bound s by the spread they share. */
  lemma TwoGroups(a: real, b: real, ss: real, q1: real, q2: real)
    requires a >= 0.0 && b >= 0.0
    requires ss <= a * q1 && ss <= b * q2
    ensures (a + b) * ss <= a * b * (q1 + q2)
  {
    Scale(b, ss, a * q1);
    Scale(a, ss, b * q2);
  }

  lemma OneTenth(a: real, b: real, s: real, sd: real)
    requires a > 0.0 && b >= 0.0 && sd >= 0.0
    requires s > a * (3.0 * sd)
    requires (a + b) * Square(s) <= a * b * ((a + b) * Square(sd))
    ensures 9.0 * a < b
  {
    var n, v := a + b, Square(sd);
    SquareNonnegative(sd);
    assert n * (a * b * v - Square(s)) >= 0.0;
    PositiveFactor(n, a * b * v - Square(s));
    LargerSquare(s, a * (3.0 * sd));
    assert Square(a * (3.0 * sd)) == a * (9.0 * a * v);
    assert a * v * (b - 9.0 * a) > 0.0;
    if b <= 9.0 * a {
      Scale(a * v, b - 9.0 * a, 0.0);
    }
  }

  lemma Positive(x: real, y: real)
    requires x > 0.0 && y > 0.0
    ensures x * y > 0.0
  {
  }

  lemma Nonnegative(x: real, y: real)
    requires x >= 0.0 && y >= 0.0
    ensures x * y >= 0.0
  {
  }

  lemma LargerSquare(s: real, r: real)
    requires s > r >= 0.0
    ensures Square(s) > Square(r)
  {
    Positive(s, s - r);
    Nonnegative(r, s - r);
    var a, b, c := s * s, s * r, r * r;
    assert a - b > 0.0;
    assert b - c >= 0.0;
  }

  lemma Regrouped(n: real, a: real, b: real, v: real, q: real, q1: real, q2: real)
    requires n == a + b && n * v == q && q == q1 + q2
    ensures q1 + q2 == (a + b) * v
  {
  }

  /** The two groups' spreads are together the variance of all the samples, as often as there are samples. */
  lemma GroupsSpread(xs: seq<real>, sd: real, t: real)
    requires |xs| > 0 && IsDeviation(xs, sd)
    ensures var up, down, c := Above(xs, t), NotAbove(xs, t), Mean(xs);
            Spread(up, c) + Spread(down, c) == (|up| as real + |down| as real) * Square(sd)
  {
    hide Square, Spread, Mean, Variance, Above, NotAbove;
    var up, down, c := Above(xs, t), NotAbove(xs, t), Mean(xs);
    VarianceBalances(xs);
    SplitSums(xs, t, c);
    Regrouped(|xs| as real, |up| as real, |down| as real, Square(sd), Spread(xs, c), Spread(up, c), Spread(down, c));
  }

  lemma TenthOfGroups(a: real, b: real, s: real, sd: real, q1: real, q2: real)
    requires a > 0.0 && b >= 0.0 && sd >= 0.0 && s > a * (3.0 * sd)
    requires Square(s) <= a * q1 && Square(-s) <= b * q2 && q1 + q2 == (a + b) * Square(sd)
    ensures 9.0 * a < b
  {
    NegatedSquare(s);
    hide Square;
    TwoGroups(a, b, Square(s), q1, q2);
    OneTenth(a, b, s, sd);
  }

  /**
   * The detector's tail bound: if any samples of a history exceed its own threshold, they are
   * fewer than one in ten.
   */
  lemma FewerThanOneInTen(xs: seq<real>, sd: real)
    requires |xs| > 0 && IsDeviation(xs, sd)
    ensures var above := |Above(xs, Mean(xs) + 3.0 * sd)|; above == 0 || 10 * above < |xs|
  {
    hide Square, Spread, Offset, Sum, Mean, Above, NotAbove;
    var c := Mean(xs);
    var t := c + 3.0 * sd;
    var up, down := Above(xs, t), NotAbove(xs, t);
    SplitSums(xs, t, c);
    if |up| > 0 {
      AboveIsFar(xs, t, c);
      OppositeOffsets(xs, t);
      Cauchy(up, c);
      Cauchy(down, c);
      GroupsSpread(xs, sd, t);
      TenthOfGroups(|up| as real, |down| as real, Offset(up, c), sd, Spread(up, c), Spread(down, c));
    }
  }

  lemma NegatedSquare(s: real)
    ensures Square(-s) == Square(s)
  {
  }

  lemma MeanBalances(xs: seq<real>)
    requires |xs| > 0
    ensures Sum(xs) == |xs| as real * Mean(xs)
  {
  }

  lemma OppositeOffsets(xs: seq<real>, t: real)
    requires |xs| > 0
    ensures Offset(NotAbove(xs, t), Mean(xs)) == -Offset(Above(xs, t), Mean(xs))
  {
    hide Mean, Sum, Offset, Above, NotAbove, Spread;
    var c := Mean(xs);
    var up, down := Above(xs, t), NotAbove(xs, t);
    SplitSums(xs, t, c);
    OffsetIsSum(up, c);
    OffsetIsSum(down, c);
    MeanBalances(xs);
    Distribute(|up| as real, |down| as real, c);
  }

  // ---------- Short histories ----------

  lemma {:induction false} InAbove(xs: seq<real>, t: real, i: nat)
    requires i < |xs| && xs[i] > t
    ensures |Above(xs, t)| > 0
  {
    if i < |xs| - 1 { InAbove(xs[..|xs| - 1], t, i); }
  }

  /**
   * While at most ten samples are retained, a flagged sample is strictly higher than every one of
   * them; in particular a spike that is still in such a history cannot be flagged again.
   */
  lemma FlaggedIsHighest(xs: seq<real>, sd: real, x: real, i: nat)
    requires i < |xs| <= 10 && IsDeviation(xs, sd)
    requires Exceeds(xs, sd, x)
    ensures xs[i] < x
  {
    var t := Mean(xs) + 3.0 * sd;
    FewerThanOneInTen(xs, sd);
    if xs[i] > t { InAbove(xs, t, i); }
  }

  /** A quiet history of m samples whose last one is a spike. */
  function Spiked(m: nat, x: real): (xs: seq<real>)
    requires m > 0
    ensures |xs| == m && xs[m - 1] == x
  {
    seq(m - 1, _ => 0.0) + [x]
  }

  lemma {:induction false} QuietSums(m: nat, c: real)
    ensures Sum(seq(m, _ => 0.0)) == 0.0
    ensures Spread(seq(m, _ => 0.0), c) == m as real * Square(c)
  {
    var xs := seq(m, _ => 0.0);
    if m > 0 {
      assert xs[..m - 1] == seq(m - 1, _ => 0.0);
      QuietSums(m - 1, c);
      Distribute((m - 1) as real, 1.0, Square(c));
    }
  }

  lemma SpikedSums(m: nat, x: real, c: real)
    requires m > 0
    ensures Sum(Spiked(m, x)) == x
    ensures Spread(Spiked(m, x), c) == (m - 1) as real * Square(c) + Square(x - c)
  {
    SumAppend(seq(m - 1, _ => 0.0), x, c);
    QuietSums(m - 1, c);
  }

  lemma SpikedVariance(m: nat, u: real)
    requires m > 0
    ensures Mean(Spiked(m, m as real * u)) == u
    ensures Variance(Spiked(m, m as real * u)) == (m as real - 1.0) * Square(u)
  {
    var n, v := m as real, (m as real - 1.0) * Square(u);
    SpikedSums(m, n * u, u);
    SpikeDistance(n, u);
    Quotient(n, u);
    Quotient(n, v);
  }

  lemma SpikeDistance(n: real, u: real)
    ensures (n - 1.0) * Square(u) + Square(n * u - u) == n * ((n - 1.0) * Square(u))
  {
    assert n * u - u == (n - 1.0) * u;
    assert Square((n - 1.0) * u) == (n - 1.0) * ((n - 1.0) * Square(u));
  }

  lemma Quotient(n: real, x: real)
    requires n > 0.0
    ensures n * x / n == x
  {
  }

  /**
   * Ten is exact: after a quiet history, an absorbed spike of any height exceeds the threshold of
   * the m samples it is now part of if and only if m is more than ten.
   */
  lemma SpikeFlagsItselfExactlyAboveTen(m: nat, u: real, sd: real)
    requires m > 0 && u > 0.0 && IsDeviation(Spiked(m, m as real * u), sd)
    ensures Exceeds(Spiked(m, m as real * u), sd, m as real * u) <==> m > 10
  {
    SpikedVariance(m, u);
    hide Mean, Variance, Spiked;
    var k := m as real - 1.0;
    assert m as real * u - u == k * u;
    assert Square(k * u) == k * (k * Square(u));
    assert Square(3.0 * sd) == 9.0 * (k * Square(u));
    Positive(u, u);
    assert k * u >= 0.0;
    SameOrder(k * u, 3.0 * sd);
    assert Square(k * u) - Square(3.0 * sd) == (k - 9.0) * (k * Square(u));
    if m > 10 {
      assert (k - 9.0) * (k * Square(u)) > 0.0;
    } else {
      assert (9.0 - k) * (k * Square(u)) >= 0.0;
    }
  }

  lemma SameOrder(x: real, y: real)
    requires x >= 0.0 && y >= 0.0
    ensures x > y <==> Square(x) > Square(y)
  {
    if x > y { LargerSquare(x, y); }
    if y > x { LargerSquare(y, x); }
  }

  // ---------- The threshold without a square root ----------

  lemma {:induction false} SpreadFromOrigin(xs: seq<real>, c: real)
    ensures Spread(xs, c) == Spread(xs, 0.0) - 2.0 * (c * Sum(xs)) + |xs| as real * Square(c)
  {
    if |xs| > 0 {
      var init, last := xs[..|xs| - 1], xs[|xs| - 1];
      SpreadFromOrigin(init, c);
      assert Square(last - c) == Square(last - 0.0) - 2.0 * (c * last) + Square(c);
      assert c * Sum(xs) == c * Sum(init) + c * last;
      Distribute(|init| as real, 1.0, Square(c));
    }
  }

  lemma ScaledBy(n: real, c: real, s: real, q: real, v: real)
    requires s == n * c && n * v == q - 2.0 * (c * s) + n * Square(c)
    ensures Square(n) * v == n * q - Square(s)
  {
    assert Square(n) * v == n * (n * v);
    assert n * (c * s) == Square(s);
    assert n * (n * Square(c)) == Square(s);
    hide Square;
    assert n * (q - 2.0 * (c * s) + n * Square(c)) == n * q - 2.0 * (n * (c * s)) + n * (n * Square(c));
  }

  lemma VarianceBalances(xs: seq<real>)
    requires |xs| > 0
    ensures |xs| as real * Variance(xs) == Spread(xs, Mean(xs))
  {
    hide Spread, Mean;
    Undivided(Spread(xs, Mean(xs)), |xs| as real);
  }

  lemma ScaledVariance(xs: seq<real>)
    requires |xs| > 0
    ensures Square(|xs| as real) * Variance(xs) == |xs| as real * Spread(xs, 0.0) - Square(Sum(xs))
  {
    hide Mean, Variance, Spread, Sum, Square;
    VarianceBalances(xs);
    SpreadFromOrigin(xs, Mean(xs));
    MeanBalances(xs);
    ScaledBy(|xs| as real, Mean(xs), Sum(xs), Spread(xs, 0.0), Variance(xs));
  }

  lemma Undivided(x: real, n: real)
    requires n > 0.0
    ensures n * (x / n) == x
  {
  }

  /** The threshold test on n samples of sum s and sum of squares q, without a root or a quotient. */
  predicate ExceedsBySums(n: real, s: real, q: real, x: real) {
    n * x > s && Square(n * x - s) > 9.0 * (n * q - Square(s))
  }

  /** The threshold test is exactly the root-free test on the samples' own sums. */
  lemma ExceedsWithoutRoot(xs: seq<real>, sd: real, x: real)
    requires |xs| > 0 && IsDeviation(xs, sd)
    ensures Exceeds(xs, sd, x) <==> ExceedsBySums(|xs| as real, Sum(xs), Spread(xs, 0.0), x)
  {
    hide Mean, Variance, Square, ExceedsBySums;
    ScaledVariance(xs);
    MeanBalances(xs);
    assert Square(|xs| as real) * Square(sd) == Square(|xs| as real) * Variance(xs);
    ThresholdBySums(|xs| as real, Sum(xs), Spread(xs, 0.0), Mean(xs), sd, x);
  }

  lemma AboveSquared(n: real, s: real, q: real, x: real)
    ensures var above := n * x - s;
            ExceedsBySums(n, s, q, x) <==> above > 0.0 && above * above > 9.0 * (n * q - s * s)
  {
  }

  /**
   * What is flagged, in terms of the n samples of the history, their sum S and their sum of squares Q:
   * nothing before there are five, and then exactly a sample x above 5 with n*x > S and
   * (n*x - S)^2 > 9 (n*Q - S^2).
   */
  lemma FlaggedExactly(history: seq<real>, tps: real, anomalous: bool)
    requires Flagged(history, tps, anomalous)
    ensures var n, s, q := |history| as real, Sum(history), Spread(history, 0.0);
            var above := n * tps - s;
            anomalous <==> |history| >= 5 && tps > 5.0 && above > 0.0 && above * above > 9.0 * (n * q - s * s)
  {
    hide IsDeviation, Exceeds, Sum, Spread, ExceedsBySums;
    if |history| >= 5 {
      var sd :| IsDeviation(history, sd) && (anomalous <==> Exceeds(history, sd, tps) && tps > MIN_TPS);
      ExceedsWithoutRoot(history, sd, tps);
      AboveSquared(|history| as real, Sum(history), Spread(history, 0.0), tps);
    }
  }

  lemma ThresholdBySums(n: real, s: real, q: real, mean: real, sd: real, x: real)
    requires n > 0.0 && s == n * mean && sd >= 0.0
    requires Square(n) * Square(sd) == n * q - Square(s)
    ensures x > mean + 3.0 * sd <==> ExceedsBySums(n, s, q, x)
  {
    hide Square;
    var y, r := n * x - s, n * (3.0 * sd);
    ScaledSquare(n, sd);
    ScaledGap(n, x, mean, 3.0 * sd);
    SignOfProduct(n, x - mean - 3.0 * sd);
    Nonnegative(n, 3.0 * sd);
    if y >= 0.0 { SameOrder(y, r); }
  }

  lemma ScaledGap(n: real, x: real, mean: real, gap: real)
    ensures n * x - n * mean - n * gap == n * (x - mean - gap)
  {
  }

  lemma ScaledSquare(n: real, sd: real)
    ensures Square(n * (3.0 * sd)) == 9.0 * (Square(n) * Square(sd))
  {
  }

  lemma SignOfProduct(n: real, x: real)
    requires n > 0.0
    ensures n * x > 0.0 <==> x > 0.0
  {
    if n * x > 0.0 { PositiveFactor(n, x); }
  }
}
