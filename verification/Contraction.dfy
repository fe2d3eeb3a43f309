/** Iterating a contraction until the last change is small, in any space with a distance.

The power iteration of code-graph/src/rank.rs is one instance (module PageRank): points are rank
vectors, the distance is L1 and `T` is one pass. */
module Contraction {
  import opened RealSums

  datatype Space<!X> = Space(T: X -> X, dist: (X, X) -> real, alpha: real)

  /** Through a third point the way is never shorter, and never longer back than forth. */
  ghost predicate Between<X>(s: Space<X>, x: X, y: X, z: X) {
    s.dist(x, z) <= s.dist(x, y) + s.dist(y, z) && s.dist(x, y) == s.dist(y, x) && s.dist(x, x) == 0.0
  }

  ghost predicate Metric<X(!new)>(s: Space<X>) {
    forall x, y, z :: Between(s, x, y, z)
  }

  ghost predicate Contracts<X(!new)>(s: Space<X>) {
    0.0 <= s.alpha < 1.0 && forall x, y :: Closer(s, x, y)
  }

  ghost predicate Closer<X>(s: Space<X>, x: X, y: X) {
    s.dist(s.T(x), s.T(y)) <= s.alpha * s.dist(x, y)
  }

  /** The point after k passes. */
  function Iterate<X>(T: X -> X, start: X, k: nat): X {
    if k == 0 then start else T(Iterate(T, start, k - 1))
  }

  /** How many passes the loop makes in all, once k of them are behind it: it ends after a pass whose
      change is below tol, or after maxIter passes. */
  function Passes<X>(T: X -> X, change: (X, X) -> real, start: X, tol: real, k: nat, maxIter: nat): (p: nat)
    requires k <= maxIter
    ensures k <= p <= maxIter
    decreases maxIter - k
  {
    if k == maxIter then k
    else if change(Iterate(T, start, k + 1), Iterate(T, start, k)) < tol then k + 1
    else Passes(T, change, start, tol, k + 1, maxIter)
  }

  // ----- scalar steps -----

  /** d is at most alpha / (1 - alpha) * b, written without the division. */
  predicate Inside(alpha: real, b: real, d: real) {
    (1.0 - alpha) * d <= alpha * b
  }

  lemma {:induction false} Distributes(alpha: real, b: real, d: real, f: real)
    requires 0.0 <= alpha && f <= b + d
    ensures alpha * f <= alpha * b + alpha * d
  {
    MulLe(alpha, f, b + d);
  }

  /** d <= alpha * (b + d) solved for d. */
  lemma {:induction false} SolvesInside(alpha: real, b: real, d: real, f: real)
    requires 0.0 <= alpha < 1.0 && f <= b + d && d <= alpha * f
    ensures Inside(alpha, b, d)
  {
    Distributes(alpha, b, d, f);
  }

  /** d <= alpha * (b + d') stays inside when d' was. */
  lemma {:induction false} StaysInside(alpha: real, b: real, d: real, d': real, f: real)
    requires 0.0 <= alpha < 1.0 && f <= b + d' && d <= alpha * f
    requires Inside(alpha, b, d')
    ensures Inside(alpha, b, d)
  {
    var p, q := alpha * b, alpha * d';
    assert d <= p + q by {
      Distributes(alpha, b, d', f);
    }
    assert d' <= p + q;
    BelowSum(alpha, p, q, p + q, d, d');
  }

  lemma {:induction false} BelowSum(alpha: real, p: real, q: real, s: real, d: real, d': real)
    requires 0.0 <= alpha < 1.0 && q == alpha * d' && s == p + q
    requires d <= s && d' <= s
    ensures (1.0 - alpha) * d <= p
  {
    MulLe(alpha, d', s);
    OneMinus(alpha, d, s);
  }

  lemma {:induction false} OneMinus(alpha: real, d: real, s: real)
    requires 0.0 <= alpha < 1.0 && d <= s
    ensures (1.0 - alpha) * d <= s - alpha * s
  {
    MulLe(1.0 - alpha, d, s);
  }

  lemma {:induction false} NotPositive(alpha: real, d: real, e: real)
    requires 0.0 <= alpha < 1.0 && e == d && e <= alpha * d
    ensures d <= 0.0
  {
    if d > 0.0 {
      MulLe(d, alpha, 1.0);
      MulStrict(d, alpha);
    }
  }

  lemma {:induction false} MulStrict(d: real, alpha: real)
    requires d > 0.0 && alpha < 1.0
    ensures alpha * d < d
  {
  }

  // ----- uniqueness of the limit, distance to it -----

  /** Fixed points are at distance zero from each other. */
  lemma {:induction false} FixedPointUnique<X(!new)>(s: Space<X>, x: X, y: X)
    requires Contracts(s) && s.T(x) == x && s.T(y) == y
    ensures s.dist(x, y) <= 0.0
  {
    assert Closer(s, x, y);
    NotPositive(s.alpha, s.dist(x, y), s.dist(s.T(x), s.T(y)));
  }

  /** A pass from x to T(x) over a distance of at most b ends within alpha / (1 - alpha) * b of the
      fixed point. */
  lemma {:induction false} FixedPointNear<X(!new)>(s: Space<X>, b: real, x: X, limit: X)
    requires Metric(s) && Contracts(s) && s.T(limit) == limit
    requires s.dist(s.T(x), x) <= b
    ensures Inside(s.alpha, b, s.dist(s.T(x), limit))
  {
    var y := s.T(x);
    assert Closer(s, x, limit) && Between(s, x, y, limit);
    SolvesInside(s.alpha, b, s.dist(y, limit), s.dist(x, limit));
  }

  /** Every pass takes the iterates closer to a fixed point by the factor alpha. */
  lemma {:induction false} IteratesApproach<X(!new)>(s: Space<X>, start: X, limit: X, d: real, k: nat)
    requires Contracts(s) && s.T(limit) == limit && s.dist(start, limit) <= d
    ensures s.dist(Iterate(s.T, start, k), limit) <= Pow(s.alpha, k) * d
  {
    if k > 0 {
      var x := Iterate(s.T, start, k - 1);
      IteratesApproach(s, start, limit, d, k - 1);
      assert Closer(s, x, limit);
      Approach(s.alpha, s.dist(x, limit), Pow(s.alpha, k - 1), d, Pow(s.alpha, k));
    }
  }

  lemma {:induction false} Approach(alpha: real, x: real, p: real, d: real, q: real)
    requires 0.0 <= alpha && x <= p * d && q == alpha * p
    ensures alpha * x <= q * d
  {
    MulLe(alpha, x, p * d);
  }

  /** The same radius without assuming that a fixed point exists: no later pass leaves the ball. */
  lemma {:induction false} LaterIteratesNear<X(!new)>(s: Space<X>, b: real, x: X, k: nat)
    requires Metric(s) && Contracts(s)
    requires s.dist(s.T(x), x) <= b
    ensures Inside(s.alpha, b, s.dist(Iterate(s.T, s.T(x), k), s.T(x)))
  {
    var y := s.T(x);
    if k == 0 {
      assert Between(s, x, y, x) && Between(s, y, y, x);
      MulLe(s.alpha, 0.0, b);
    } else {
      var z := Iterate(s.T, y, k - 1);
      LaterIteratesNear(s, b, x, k - 1);
      assert Closer(s, z, x) && Between(s, z, y, x);
      StaysInside(s.alpha, b, s.dist(s.T(z), y), s.dist(z, y), s.dist(z, x));
    }
  }

  // ----- how soon the loop stops -----

  ghost predicate Decays(alpha: real, bound: nat -> real, j: nat) {
    alpha * bound(j) <= bound(j + 1)
  }

  /** A geometric bound that covers the first change covers all of them. */
  lemma {:induction false} IterateGap<X(!new)>(s: Space<X>, bound: nat -> real, start: X, k: nat)
    requires Contracts(s) && s.dist(s.T(start), start) <= bound(0)
    requires forall j: nat :: Decays(s.alpha, bound, j)
    ensures s.dist(Iterate(s.T, start, k + 1), Iterate(s.T, start, k)) <= bound(k)
  {
    if k > 0 {
      var x, y := Iterate(s.T, start, k), Iterate(s.T, start, k - 1);
      IterateGap(s, bound, start, k - 1);
      assert Decays(s.alpha, bound, k - 1) && Closer(s, x, y);
      MulLe(s.alpha, s.dist(x, y), bound(k - 1));
    }
  }

  /** If pass m would change too little to go on, the loop has stopped by then, and it was the
      tolerance test that stopped it. */
  lemma {:induction false} StopsByTolerance<X>(T: X -> X, change: (X, X) -> real, start: X, tol: real,
                                               k: nat, m: nat, maxIter: nat)
    requires k < m <= maxIter && change(Iterate(T, start, m), Iterate(T, start, m - 1)) < tol
    ensures var p := Passes(T, change, start, tol, k, maxIter);
            k < p <= m && change(Iterate(T, start, p), Iterate(T, start, p - 1)) < tol
    decreases m - k
  {
    if k + 1 < m && change(Iterate(T, start, k + 1), Iterate(T, start, k)) >= tol {
      StopsByTolerance(T, change, start, tol, k + 1, m, maxIter);
    }
  }

  /** The loop goes on as long as every change is at least the tolerance. */
  lemma {:induction false} KeepsGoing<X>(T: X -> X, change: (X, X) -> real, start: X, tol: real,
                                         k: nat, m: nat, maxIter: nat)
    requires k <= m <= maxIter
    requires forall j: nat :: k <= j < m ==> change(Iterate(T, start, j + 1), Iterate(T, start, j)) >= tol
    ensures Passes(T, change, start, tol, k, maxIter) >= m
    decreases m - k
  {
    if k < m {
      KeepsGoing(T, change, start, tol, k + 1, m, maxIter);
    }
  }
}
