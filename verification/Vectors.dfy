/** Real vectors with the L1 distance and the largest componentwise change. */
module Vectors {
  import opened RealSums

  function At(x: seq<real>, i: int): real {
    if 0 <= i < |x| then x[i] else 0.0
  }

  function Coord(x: seq<real>): int -> real {
    i => At(x, i)
  }

  function Total(x: seq<real>): real {
    Sum(Coord(x), |x|)
  }

  function Gap(x: seq<real>, y: seq<real>, i: int): real {
    Abs(At(x, i) - At(y, i))
  }

  function Gaps(x: seq<real>, y: seq<real>): int -> real {
    i => Gap(x, y, i)
  }

  /** The L1 distance over the first n components. */
  function L1(n: nat, x: seq<real>, y: seq<real>): real {
    Sum(Gaps(x, y), n)
  }

  function L1Distance(n: nat): (seq<real>, seq<real>) -> real {
    (x, y) => L1(n, x, y)
  }

  function Max(a: real, b: real): real {
    if a < b then b else a
  }

  /** Largest componentwise change over the first k components, at least 0. */
  function MaxGap(k: nat, x: seq<real>, y: seq<real>): real {
    if k == 0 then 0.0 else Max(MaxGap(k - 1, x, y), Gap(x, y, k - 1))
  }

  function MaxChange(n: nat): (seq<real>, seq<real>) -> real {
    (x, y) => MaxGap(n, x, y)
  }

  ghost predicate Distribution(x: seq<real>) {
    (forall i :: 0 <= i < |x| ==> x[i] >= 0.0) && Total(x) == 1.0
  }

  /** The L1 distance is a pseudometric. */
  lemma {:induction false} L1Triangle(n: nat, x: seq<real>, y: seq<real>, z: seq<real>)
    ensures L1(n, x, z) <= L1(n, x, y) + L1(n, y, z)
    ensures L1(n, x, y) == L1(n, y, x)
    ensures L1(n, x, x) == 0.0
  {
    SumLinear(1.0, Gaps(x, y), 1.0, Gaps(y, z), i => Gap(x, y, i) + Gap(y, z, i), n);
    SumMono(Gaps(x, z), i => Gap(x, y, i) + Gap(y, z, i), n);
    SumExt(Gaps(x, y), Gaps(y, x), n);
    SumExt(Gaps(x, x), i => 0.0, n);
    SumConst(0.0, n);
  }

  /** Vectors at distance zero are equal. */
  lemma {:induction false} L1Zero(x: seq<real>, y: seq<real>)
    requires |x| == |y| && L1(|x|, x, y) <= 0.0
    ensures x == y
  {
    SumNonneg(Gaps(x, y), |x|);
    forall i | 0 <= i < |x| ensures x[i] == y[i] {
      assert Gaps(x, y)(i) <= 0.0;
    }
  }

  lemma {:induction false} DistributionsWithinTwo(x: seq<real>, y: seq<real>)
    requires |x| == |y| && Distribution(x) && Distribution(y)
    ensures L1(|x|, x, y) <= 2.0
  {
    SumMono(Gaps(x, y), i => At(x, i) + At(y, i), |x|);
    SumLinear(1.0, Coord(x), 1.0, Coord(y), i => At(x, i) + At(y, i), |x|);
  }

  /** Between vectors of equal total, no component changes by more than half of the L1 distance. */
  lemma {:induction false} GapIsHalf(x: seq<real>, y: seq<real>, v: nat)
    requires |x| == |y| && v < |x| && Total(x) == Total(y)
    ensures 2.0 * Gap(x, y, v) <= L1(|x|, x, y)
  {
    var d := (i: int) => At(x, i) - At(y, i);
    SumLinear(1.0, Coord(x), -1.0, Coord(y), d, |x|);
    SumAbsBut(d, Gaps(x, y), |x|, v);
  }

  lemma {:induction false} MaxGapIsHalf(x: seq<real>, y: seq<real>, k: nat)
    requires |x| == |y| && k <= |x| && Total(x) == Total(y)
    ensures 2.0 * MaxGap(k, x, y) <= L1(|x|, x, y)
  {
    if k == 0 {
      SumNonneg(Gaps(x, y), |x|);
    } else {
      MaxGapIsHalf(x, y, k - 1);
      GapIsHalf(x, y, k - 1);
    }
  }

  lemma {:induction false} GapBelowMaxGap(n: nat, x: seq<real>, y: seq<real>, v: nat)
    requires v < n
    ensures 0.0 <= Gap(x, y, v) <= MaxGap(n, x, y)
  {
    if v < n - 1 {
      GapBelowMaxGap(n - 1, x, y, v);
    }
  }

  /** A largest change below tol bounds the whole distance by n * tol. */
  lemma {:induction false} L1BelowMaxGap(n: nat, x: seq<real>, y: seq<real>, tol: real)
    requires MaxGap(n, x, y) < tol
    ensures L1(n, x, y) <= n as real * tol
  {
    forall v | 0 <= v < n ensures Gaps(x, y)(v) <= tol {
      GapBelowMaxGap(n, x, y, v);
    }
    SumMono(Gaps(x, y), i => tol, n);
    SumConst(tol, n);
  }
}
