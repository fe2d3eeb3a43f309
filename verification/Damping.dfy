/** One damped pass over a row-stochastic share matrix: conservation and contraction. */
module Damping {
  import opened RealSums
  import opened Vectors
  import C = Contraction

  /** P(u, v) is the part of u's rank that flows to v. */
  type Shares = (int, int) -> real

  function Row(P: Shares, u: int): int -> real {
    v => P(u, v)
  }

  ghost predicate StochasticRow(P: Shares, n: nat, u: int) {
    (forall v :: P(u, v) >= 0.0) && Sum(Row(P, u), n) == 1.0
  }

  ghost predicate Stochastic(P: Shares, n: nat) {
    forall u :: 0 <= u < n ==> StochasticRow(P, n, u)
  }

  function Terms(P: Shares, g: int -> real, v: int): int -> real {
    u => g(u) * P(u, v)
  }

  /** What reaches v when node u sends out g(u). */
  function Flow(P: Shares, n: nat, g: int -> real, v: int): real {
    Sum(Terms(P, g, v), n)
  }

  function Flows(P: Shares, n: nat, g: int -> real): int -> real {
    v => Flow(P, n, g, v)
  }

  function StepAt(P: Shares, tele: seq<real>, alpha: real, x: seq<real>, v: int): real {
    (1.0 - alpha) * At(tele, v) + alpha * Flow(P, |tele|, Coord(x), v)
  }

  function Step(P: Shares, tele: seq<real>, alpha: real, x: seq<real>): seq<real> {
    seq(|tele|, v => StepAt(P, tele, alpha, x, v))
  }

  function Pass(P: Shares, tele: seq<real>, alpha: real): seq<real> -> seq<real> {
    x => Step(P, tele, alpha, x)
  }

  // ----- flows -----

  lemma {:induction false} AbsScale(a: real, b: real)
    requires b >= 0.0
    ensures Abs(a * b) == Abs(a) * b
  {
    if a < 0.0 {
      MulNonneg(-a, b);
    } else {
      MulNonneg(a, b);
    }
  }

  /** Pushing any vector through the matrix keeps its total. */
  lemma {:induction false} FlowConserved(P: Shares, n: nat, g: int -> real)
    requires Stochastic(P, n)
    ensures Sum(Flows(P, n, g), n) == Sum(g, n)
  {
    var f := (u: int, v: int) => g(u) * P(u, v);
    SumSwap(f, n, n);
    forall u | 0 <= u < n ensures Sum(v => f(u, v), n) == g(u) {
      assert StochasticRow(P, n, u);
      SumScale(g(u), Row(P, u), v => f(u, v), n);
    }
    SumExt(u => Sum(v => f(u, v), n), g, n);
    forall v ensures Sum(u => f(u, v), n) == Flow(P, n, g, v) {
      SumExt(u => f(u, v), Terms(P, g, v), n);
    }
    SumExt(v => Sum(u => f(u, v), n), Flows(P, n, g), n);
  }

  /** A nonnegative vector sends nonnegative amounts. */
  lemma {:induction false} FlowNonneg(P: Shares, n: nat, g: int -> real, v: int)
    requires Stochastic(P, n)
    requires forall u :: 0 <= u < n ==> g(u) >= 0.0
    ensures Flow(P, n, g, v) >= 0.0
  {
    forall u | 0 <= u < n ensures Terms(P, g, v)(u) >= 0.0 {
      assert StochasticRow(P, n, u);
      MulNonneg(g(u), P(u, v));
    }
    SumNonneg(Terms(P, g, v), n);
  }

  lemma {:induction false} FlowDifference(P: Shares, n: nat, f: int -> real, g: int -> real, d: int -> real, v: int)
    requires forall u :: 0 <= u < n ==> d(u) == f(u) - g(u)
    ensures Flow(P, n, f, v) - Flow(P, n, g, v) == Flow(P, n, d, v)
  {
    forall u | 0 <= u < n
      ensures Terms(P, d, v)(u) == 1.0 * Terms(P, f, v)(u) + (-1.0) * Terms(P, g, v)(u)
    {
      MulDifference(f(u), g(u), d(u), P(u, v));
    }
    SumLinear(1.0, Terms(P, f, v), -1.0, Terms(P, g, v), Terms(P, d, v), n);
  }

  lemma {:induction false} MulDifference(f: real, g: real, d: real, p: real)
    requires d == f - g
    ensures d * p == f * p - g * p
  {
  }

  lemma {:induction false} FlowAbs(P: Shares, n: nat, d: int -> real, e: int -> real, v: int)
    requires Stochastic(P, n)
    requires forall u :: 0 <= u < n ==> e(u) == Abs(d(u))
    ensures Abs(Flow(P, n, d, v)) <= Flow(P, n, e, v)
  {
    forall u | 0 <= u < n ensures Terms(P, e, v)(u) == Abs(Terms(P, d, v)(u)) {
      assert StochasticRow(P, n, u);
      AbsScale(d(u), P(u, v));
    }
    SumAbs(Terms(P, d, v), Terms(P, e, v), n);
  }

  /** The change of one flow is bounded by the flow of the changes. */
  lemma {:induction false} FlowGap(P: Shares, n: nat, x: seq<real>, y: seq<real>, v: int)
    requires Stochastic(P, n)
    ensures Abs(Flow(P, n, Coord(x), v) - Flow(P, n, Coord(y), v)) <= Flow(P, n, Gaps(x, y), v)
  {
    var d := (u: int) => At(x, u) - At(y, u);
    FlowDifference(P, n, Coord(x), Coord(y), d, v);
    FlowAbs(P, n, d, Gaps(x, y), v);
  }

  // ----- conservation -----

  lemma {:induction false} StepFloor(P: Shares, tele: seq<real>, alpha: real, x: seq<real>, v: nat)
    requires Stochastic(P, |tele|) && Distribution(tele) && 0.0 <= alpha <= 1.0 && v < |tele|
    requires |x| == |tele| && Distribution(x)
    ensures StepAt(P, tele, alpha, x, v) >= (1.0 - alpha) * tele[v] >= 0.0
  {
    FlowNonneg(P, |tele|, Coord(x), v);
    MulNonneg(alpha, Flow(P, |tele|, Coord(x), v));
    MulNonneg(1.0 - alpha, tele[v]);
  }

  lemma {:induction false} StepCombines(P: Shares, tele: seq<real>, alpha: real, x: seq<real>)
    ensures Combines(1.0 - alpha, Coord(tele), alpha, Flows(P, |tele|, Coord(x)),
                     Coord(Step(P, tele, alpha, x)), |tele|)
  {
  }

  lemma {:induction false} StepTotal(P: Shares, tele: seq<real>, alpha: real, x: seq<real>)
    requires Stochastic(P, |tele|) && |x| == |tele| && Total(tele) == Total(x) == 1.0
    ensures Total(Step(P, tele, alpha, x)) == 1.0
  {
    FlowConserved(P, |tele|, Coord(x));
    StepCombines(P, tele, alpha, x);
    SumCombined(1.0 - alpha, Coord(tele), alpha, Flows(P, |tele|, Coord(x)),
                Coord(Step(P, tele, alpha, x)), |tele|, 1.0, 1.0);
  }

  /** One pass turns a distribution into a distribution and gives every node its teleport share. */
  lemma {:induction false} StepKeepsDistribution(P: Shares, tele: seq<real>, alpha: real, x: seq<real>)
    requires Stochastic(P, |tele|) && Distribution(tele) && 0.0 <= alpha <= 1.0
    requires |x| == |tele| && Distribution(x)
    ensures Distribution(Step(P, tele, alpha, x))
    ensures forall v :: 0 <= v < |x| ==> Step(P, tele, alpha, x)[v] >= (1.0 - alpha) * tele[v]
  {
    var y := Step(P, tele, alpha, x);
    forall v | 0 <= v < |x| ensures y[v] >= (1.0 - alpha) * tele[v] >= 0.0 {
      StepFloor(P, tele, alpha, x, v);
    }
    StepTotal(P, tele, alpha, x);
  }

  /** Every iterate is a probability distribution bounded below by the teleport floor. */
  lemma {:induction false} IteratesAreDistributions(P: Shares, tele: seq<real>, alpha: real, k: nat)
    requires Stochastic(P, |tele|) && Distribution(tele) && 0.0 <= alpha < 1.0
    ensures var x := C.Iterate(Pass(P, tele, alpha), tele, k);
            |x| == |tele| && Distribution(x) && forall v :: 0 <= v < |x| ==> x[v] >= (1.0 - alpha) * tele[v]
  {
    if k == 0 {
      forall v | 0 <= v < |tele| ensures tele[v] >= (1.0 - alpha) * tele[v] {
        MulNonneg(alpha, tele[v]);
      }
    } else {
      IteratesAreDistributions(P, tele, alpha, k - 1);
      StepKeepsDistribution(P, tele, alpha, C.Iterate(Pass(P, tele, alpha), tele, k - 1));
    }
  }

  // ----- contraction -----

  function Space(P: Shares, tele: seq<real>, alpha: real): C.Space<seq<real>> {
    C.Space(Pass(P, tele, alpha), L1Distance(|tele|), alpha)
  }

  lemma {:induction false} StepGap(a: real, t: real, p: real, q: real)
    requires a >= 0.0
    ensures Abs(((1.0 - a) * t + a * p) - ((1.0 - a) * t + a * q)) == a * Abs(p - q)
  {
    assert ((1.0 - a) * t + a * p) - ((1.0 - a) * t + a * q) == (p - q) * a;
    AbsScale(p - q, a);
  }

  lemma {:induction false} StepGapBound(P: Shares, tele: seq<real>, alpha: real, x: seq<real>, y: seq<real>, v: int)
    requires Stochastic(P, |tele|) && alpha >= 0.0 && 0 <= v < |tele|
    ensures Gap(Step(P, tele, alpha, x), Step(P, tele, alpha, y), v) <= alpha * Flow(P, |tele|, Gaps(x, y), v)
  {
    FlowGap(P, |tele|, x, y, v);
    var p, q := Flow(P, |tele|, Coord(x), v), Flow(P, |tele|, Coord(y), v);
    StepGap(alpha, At(tele, v), p, q);
    MulLe(alpha, Abs(p - q), Flow(P, |tele|, Gaps(x, y), v));
  }

  lemma {:induction false} StepGapsBounded(P: Shares, tele: seq<real>, alpha: real, x: seq<real>, y: seq<real>)
    requires Stochastic(P, |tele|) && alpha >= 0.0
    ensures BoundedBy(alpha, Gaps(Step(P, tele, alpha, x), Step(P, tele, alpha, y)),
                      Flows(P, |tele|, Gaps(x, y)), |tele|)
  {
    forall v | 0 <= v < |tele|
      ensures Gaps(Step(P, tele, alpha, x), Step(P, tele, alpha, y))(v) <= alpha * Flows(P, |tele|, Gaps(x, y))(v)
    {
      StepGapBound(P, tele, alpha, x, y, v);
    }
  }

  /** One pass shrinks the distance between any two vectors by at least the factor alpha. */
  lemma {:induction false} StepContracts(P: Shares, tele: seq<real>, alpha: real, x: seq<real>, y: seq<real>)
    requires Stochastic(P, |tele|) && alpha >= 0.0
    ensures L1(|tele|, Step(P, tele, alpha, x), Step(P, tele, alpha, y)) <= alpha * L1(|tele|, x, y)
  {
    StepGapsBounded(P, tele, alpha, x, y);
    BoundedGapsShrink(P, |tele|, alpha, x, y, Step(P, tele, alpha, x), Step(P, tele, alpha, y));
  }

  lemma {:induction false} BoundedGapsShrink(P: Shares, n: nat, alpha: real, x: seq<real>, y: seq<real>,
                                             x': seq<real>, y': seq<real>)
    requires Stochastic(P, n) && alpha >= 0.0
    requires BoundedBy(alpha, Gaps(x', y'), Flows(P, n, Gaps(x, y)), n)
    ensures L1(n, x', y') <= alpha * L1(n, x, y)
  {
    FlowConserved(P, n, Gaps(x, y));
    SumScaledBound(alpha, Gaps(x', y'), Flows(P, n, Gaps(x, y)), n, L1(n, x, y));
  }

  lemma {:induction false} PassContracts(P: Shares, tele: seq<real>, alpha: real)
    requires Stochastic(P, |tele|) && 0.0 <= alpha < 1.0
    ensures C.Metric(Space(P, tele, alpha)) && C.Contracts(Space(P, tele, alpha))
  {
    var s := Space(P, tele, alpha);
    forall x, y ensures C.Closer(s, x, y) {
      StepContracts(P, tele, alpha, x, y);
    }
    forall x, y, z ensures C.Between(s, x, y, z) {
      L1Triangle(|tele|, x, y, z);
    }
  }

  // ----- the first pass, and all changes -----

  lemma {:induction false} DampedGap(alpha: real, t: real, f: real)
    requires alpha >= 0.0
    ensures Abs((1.0 - alpha) * t + alpha * f - t) == alpha * Abs(f - t)
  {
    assert (1.0 - alpha) * t + alpha * f - t == (f - t) * alpha;
    AbsScale(f - t, alpha);
  }

  lemma {:induction false} FirstGap(P: Shares, tele: seq<real>, alpha: real, v: int)
    requires 0 <= v < |tele| && alpha >= 0.0
    ensures Gap(Step(P, tele, alpha, tele), tele, v) == alpha * Gap(Step(P, tele, 1.0, tele), tele, v)
  {
    DampedGap(alpha, At(tele, v), Flow(P, |tele|, Coord(tele), v));
  }

  lemma {:induction false} FirstGapsBounded(P: Shares, tele: seq<real>, alpha: real)
    requires alpha >= 0.0
    ensures BoundedBy(alpha, Gaps(Step(P, tele, alpha, tele), tele), Gaps(Step(P, tele, 1.0, tele), tele), |tele|)
  {
    forall v | 0 <= v < |tele|
      ensures Gaps(Step(P, tele, alpha, tele), tele)(v) <= alpha * Gaps(Step(P, tele, 1.0, tele), tele)(v)
    {
      FirstGap(P, tele, alpha, v);
    }
  }

  lemma {:induction false} UndampedStep(P: Shares, tele: seq<real>)
    requires Stochastic(P, |tele|) && Distribution(tele)
    ensures L1(|tele|, Step(P, tele, 1.0, tele), tele) <= 2.0
  {
    StepKeepsDistribution(P, tele, 1.0, tele);
    DistributionsWithinTwo(Step(P, tele, 1.0, tele), tele);
  }

  /** The first pass moves alpha times what the undamped pass would move, at most 2 * alpha. */
  lemma {:induction false} FirstStep(P: Shares, tele: seq<real>, alpha: real)
    requires Stochastic(P, |tele|) && Distribution(tele) && 0.0 <= alpha <= 1.0
    ensures L1(|tele|, Step(P, tele, alpha, tele), tele) <= alpha * 2.0
  {
    FirstGapsBounded(P, tele, alpha);
    UndampedStep(P, tele);
    SumScaledBound(alpha, Gaps(Step(P, tele, alpha, tele), tele), Gaps(Step(P, tele, 1.0, tele), tele),
                   |tele|, 2.0);
  }

  function Geometric(alpha: real): nat -> real {
    (k: nat) => 2.0 * Pow(alpha, k + 1)
  }

  lemma {:induction false} GeometricDecays(alpha: real, k: nat)
    ensures C.Decays(alpha, Geometric(alpha), k)
    ensures Geometric(alpha)(0) == alpha * 2.0
  {
    assert Pow(alpha, k + 2) == alpha * Pow(alpha, k + 1);
    assert Pow(alpha, 1) == alpha * Pow(alpha, 0);
  }

  /** Pass k + 1 moves the vector by at most 2 * alpha^(k+1) in all, and no component by more than
      alpha^(k+1). */
  lemma {:induction false} ChangeBound(P: Shares, tele: seq<real>, alpha: real, k: nat)
    requires Stochastic(P, |tele|) && Distribution(tele) && 0.0 <= alpha < 1.0
    ensures var x, y := C.Iterate(Pass(P, tele, alpha), tele, k + 1), C.Iterate(Pass(P, tele, alpha), tele, k);
            L1(|tele|, x, y) <= 2.0 * Pow(alpha, k + 1) && MaxChange(|tele|)(x, y) <= Pow(alpha, k + 1)
  {
    var s := Space(P, tele, alpha);
    PassContracts(P, tele, alpha);
    FirstStep(P, tele, alpha);
    forall j: nat ensures C.Decays(alpha, Geometric(alpha), j) {
      GeometricDecays(alpha, j);
    }
    GeometricDecays(alpha, 0);
    C.IterateGap(s, Geometric(alpha), tele, k);
    IteratesAreDistributions(P, tele, alpha, k);
    IteratesAreDistributions(P, tele, alpha, k + 1);
    MaxGapIsHalf(C.Iterate(s.T, tele, k + 1), C.Iterate(s.T, tele, k), |tele|);
  }
}
