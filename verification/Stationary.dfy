/** The vector the power iteration of code-graph/src/rank.rs approaches: it exists, it is a distribution, and the
distance to it shrinks by the damping factor with every pass. */
module Stationary {
  import opened RealSums
  import opened Vectors
  import opened Transpose
  import opened PageRank
  import C = Contraction
  import D = Damping
  import E = Elimination

  // ----- one pass as a system of equations -----

  function Damped(P: D.Shares, alpha: real): E.Matrix {
    (v, u) => alpha * P(u, v)
  }

  function Floor(tele: seq<real>, alpha: real): int -> real {
    v => (1.0 - alpha) * At(tele, v)
  }

  lemma {:induction false} DampedColumn(P: D.Shares, alpha: real, n: nat, u: int)
    requires D.StochasticRow(P, n, u) && alpha >= 0.0
    ensures E.SmallColumn(Damped(P, alpha), alpha, n, u)
  {
    forall v | 0 <= v < n ensures Damped(P, alpha)(v, u) >= 0.0 {
      MulNonneg(alpha, P(u, v));
    }
    SumScale(alpha, D.Row(P, u), E.Column(Damped(P, alpha), u), n);
  }

  lemma {:induction false} DampedIsSmall(P: D.Shares, alpha: real, n: nat)
    requires D.Stochastic(P, n) && alpha >= 0.0
    ensures E.Small(Damped(P, alpha), alpha, n)
  {
    forall u | 0 <= u < n ensures E.SmallColumn(Damped(P, alpha), alpha, n, u) {
      assert D.StochasticRow(P, n, u);
      DampedColumn(P, alpha, n, u);
    }
  }

  lemma {:induction false} ThreeFactors(a: real, p: real, y: real)
    ensures (a * p) * y == a * (y * p)
  {
    E.Triple(a, p, y);
    E.Swap(p, y);
  }

  lemma {:induction false} DampedFlow(P: D.Shares, n: nat, alpha: real, y: int -> real, g: int -> real, v: int)
    requires forall u :: 0 <= u < n ==> g(u) == y(u)
    ensures Sum(E.RowTerms(Damped(P, alpha), v, y), n) == alpha * D.Flow(P, n, g, v)
  {
    var terms := D.Terms(P, g, v);
    forall u | 0 <= u < n ensures E.RowTerms(Damped(P, alpha), v, y)(u) == alpha * terms(u) {
      ThreeFactors(alpha, P(u, v), y(u));
    }
    SumScale(alpha, terms, E.RowTerms(Damped(P, alpha), v, y), n);
  }

  lemma {:induction false} RowIsStep(P: D.Shares, tele: seq<real>, alpha: real, y: int -> real, x: seq<real>, v: nat)
    requires v < |tele| == |x| && forall u :: 0 <= u < |x| ==> x[u] == y(u)
    requires E.SolvesRow(Damped(P, alpha), Floor(tele, alpha), y, |tele|, v)
    ensures D.StepAt(P, tele, alpha, x, v) == x[v]
  {
    DampedFlow(P, |tele|, alpha, y, Coord(x), v);
  }

  lemma {:induction false} TotalIsOne(P: D.Shares, tele: seq<real>, alpha: real, x: seq<real>)
    requires D.Stochastic(P, |tele|) && Total(tele) == 1.0 && 0.0 <= alpha < 1.0
    requires |x| == |tele| && D.Step(P, tele, alpha, x) == x
    ensures Total(x) == 1.0
  {
    D.FlowConserved(P, |tele|, Coord(x));
    D.StepCombines(P, tele, alpha, x);
    SumCombined(1.0 - alpha, Coord(tele), alpha, D.Flows(P, |tele|, Coord(x)), Coord(D.Step(P, tele, alpha, x)),
                |tele|, 1.0, Total(x));
    OnlyOne(alpha, Total(x));
  }

  lemma {:induction false} OnlyOne(a: real, t: real)
    requires 0.0 <= a < 1.0 && t == (1.0 - a) * 1.0 + a * t
    ensures t == 1.0
  {
    var p, s := 1.0 - a, t - 1.0;
    E.Expand(1.0, -a, s);
    assert p * s == 0.0;
  }

  /** Every damped pass leaves some distribution unchanged. */
  lemma {:induction false} FixedDistribution(P: D.Shares, tele: seq<real>, alpha: real) returns (x: seq<real>)
    requires D.Stochastic(P, |tele|) && Distribution(tele) && 0.0 <= alpha < 1.0
    ensures |x| == |tele| && D.Step(P, tele, alpha, x) == x && Distribution(x)
  {
    var n := |tele|;
    DampedIsSmall(P, alpha, n);
    forall v | 0 <= v < n ensures Floor(tele, alpha)(v) >= 0.0 {
      MulNonneg(1.0 - alpha, tele[v]);
    }
    var y := E.Solve(Damped(P, alpha), alpha, Floor(tele, alpha), n);
    x := seq(n, v => y(v));
    forall v | 0 <= v < n ensures x[v] >= 0.0 && D.StepAt(P, tele, alpha, x, v) == x[v] {
      assert E.SolvesRow(Damped(P, alpha), Floor(tele, alpha), y, n, v);
      RowIsStep(P, tele, alpha, y, x, v);
    }
    assert D.Step(P, tele, alpha, x) == x;
    TotalIsOne(P, tele, alpha, x);
  }

  // ----- the limit of the ranks -----

  ghost predicate IsStationary(outs: seq<seq<Arc>>, tele: seq<real>, alpha: real, limit: seq<real>) {
    |limit| == |tele| && PassMap(outs, tele, alpha)(limit) == limit
  }

  /** There is exactly one vector that a pass leaves unchanged, and it is a distribution. */
  lemma {:induction false} OneStationary(outs: seq<seq<Arc>>, tele: seq<real>, alpha: real)
    returns (limit: seq<real>)
    requires Proper(outs) && |outs| == |tele| && Distribution(tele) && 0.0 <= alpha < 1.0
    ensures Distribution(limit) && forall x :: IsStationary(outs, tele, alpha, x) <==> x == limit
  {
    SharesAreStochastic(outs, tele);
    limit := FixedDistribution(Shares(outs, tele), tele, alpha);
    assert IsStationary(outs, tele, alpha, limit);
    forall x | IsStationary(outs, tele, alpha, x) ensures x == limit {
      StationaryUnique(outs, tele, alpha, x, limit);
    }
  }

  /** The ranks approach it: after k passes they are within 2 * alpha^k of it. */
  lemma {:induction false} RanksConverge(outs: seq<seq<Arc>>, tele: seq<real>, alpha: real, limit: seq<real>, k: nat)
    requires Proper(outs) && |outs| == |tele| && Distribution(tele) && 0.0 <= alpha < 1.0
    requires IsStationary(outs, tele, alpha, limit) && Distribution(limit)
    ensures L1Distance(|tele|)(C.Iterate(PassMap(outs, tele, alpha), tele, k), limit) <= Pow(alpha, k) * 2.0
  {
    var s := D.Space(Shares(outs, tele), tele, alpha);
    SharesAreStochastic(outs, tele);
    D.PassContracts(Shares(outs, tele), tele, alpha);
    DistributionsWithinTwo(tele, limit);
    C.IteratesApproach(s, tele, limit, 2.0, k);
  }

  /** A result that the tolerance test ended is near the one stationary vector: within alpha / (1 - alpha) times
      n * tol in L1. */
  lemma {:induction false} ResultIsNearStationary(outs: seq<seq<Arc>>, tele: seq<real>, alpha: real, maxIter: nat,
                                                  tol: real, b: real) returns (limit: seq<real>)
    requires Proper(outs) && |outs| == |tele| && Distribution(tele) && 0.0 <= alpha < 1.0
    requires var p := PassCount(outs, tele, alpha, maxIter, tol); p > 0 && LastChange(outs, tele, alpha, p) < tol
    requires b == |tele| as real * tol
    ensures Distribution(limit) && forall x :: IsStationary(outs, tele, alpha, x) <==> x == limit
    ensures C.Inside(alpha, b, L1Distance(|tele|)(RankVector(outs, tele, alpha, maxIter, tol), limit))
  {
    limit := OneStationary(outs, tele, alpha);
    assert IsStationary(outs, tele, alpha, limit);
    ResultIsNearLimit(outs, tele, alpha, maxIter, tol, b, limit);
  }

  /** With the shipped constants: on every graph with nonnegative weights the result is near the one stationary
      vector. */
  lemma {:induction false} ShippedResultIsNear(outs: seq<seq<Arc>>, tele: seq<real>, b: real)
    returns (limit: seq<real>)
    requires Proper(outs) && |outs| == |tele| && Distribution(tele) && b == |tele| as real * PAGERANK_TOL
    ensures Distribution(limit) && forall x :: IsStationary(outs, tele, PAGERANK_ALPHA, x) <==> x == limit
    ensures C.Inside(PAGERANK_ALPHA, b,
                     L1Distance(|tele|)(RankVector(outs, tele, PAGERANK_ALPHA, PAGERANK_MAX_ITER, PAGERANK_TOL), limit))
  {
    ShippedConstantsStop(outs, tele);
    limit := ResultIsNearStationary(outs, tele, PAGERANK_ALPHA, PAGERANK_MAX_ITER, PAGERANK_TOL, b);
  }
}
