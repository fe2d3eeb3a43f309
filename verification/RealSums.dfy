/** Finite sums of real-valued functions: the arithmetic the ranking proofs rest on. */
module RealSums {

  /** f(0) + f(1) + ... + f(n - 1). */
  function Sum(f: int -> real, n: nat): real {
    if n == 0 then 0.0 else Sum(f, n - 1) + f(n - 1)
  }

  function Abs(x: real): real {
    if x < 0.0 then -x else x
  }

  function Pow(b: real, k: nat): real {
    if k == 0 then 1.0 else b * Pow(b, k - 1)
  }

  lemma {:induction false} SumExt(f: int -> real, g: int -> real, n: nat)
    requires forall i :: 0 <= i < n ==> f(i) == g(i)
    ensures Sum(f, n) == Sum(g, n)
  {
    if n > 0 {
      SumExt(f, g, n - 1);
    }
  }

  lemma {:induction false} SumMono(f: int -> real, g: int -> real, n: nat)
    requires forall i :: 0 <= i < n ==> f(i) <= g(i)
    ensures Sum(f, n) <= Sum(g, n)
  {
    if n > 0 {
      SumMono(f, g, n - 1);
    }
  }

  lemma {:induction false} SumConst(c: real, n: nat)
    ensures Sum(i => c, n) == n as real * c
  {
    if n > 0 {
      SumConst(c, n - 1);
      SumExt(i => c, i => c, n - 1);
    }
  }

  lemma {:induction false} Distribute(a: real, x: real, y: real, s: real)
    requires s == x + y
    ensures a * s == a * x + a * y
  {
  }

  /** h = a*f + b*g pointwise gives the same combination of the sums. */
  lemma {:induction false} SumLinear(a: real, f: int -> real, b: real, g: int -> real, h: int -> real, n: nat)
    requires forall i :: 0 <= i < n ==> h(i) == a * f(i) + b * g(i)
    ensures Sum(h, n) == a * Sum(f, n) + b * Sum(g, n)
  {
    if n > 0 {
      SumLinear(a, f, b, g, h, n - 1);
      Distribute(a, Sum(f, n - 1), f(n - 1), Sum(f, n));
      Distribute(b, Sum(g, n - 1), g(n - 1), Sum(g, n));
    }
  }

  lemma {:induction false} SumAdd(f: int -> real, g: int -> real, h: int -> real, n: nat)
    requires forall i :: 0 <= i < n ==> h(i) == f(i) + g(i)
    ensures Sum(h, n) == Sum(f, n) + Sum(g, n)
  {
    if n > 0 {
      SumAdd(f, g, h, n - 1);
    }
  }

  ghost predicate Combines(a: real, f: int -> real, b: real, g: int -> real, h: int -> real, n: nat) {
    forall i :: 0 <= i < n ==> h(i) == a * f(i) + b * g(i)
  }

  lemma {:induction false} SumCombined(a: real, f: int -> real, b: real, g: int -> real, h: int -> real, n: nat,
                                       p: real, q: real)
    requires Combines(a, f, b, g, h, n) && p == Sum(f, n) && q == Sum(g, n)
    ensures Sum(h, n) == a * p + b * q
  {
    SumLinear(a, f, b, g, h, n);
  }

  lemma {:induction false} SumScale(a: real, f: int -> real, h: int -> real, n: nat)
    requires forall i :: 0 <= i < n ==> h(i) == a * f(i)
    ensures Sum(h, n) == a * Sum(f, n)
  {
    if n > 0 {
      SumScale(a, f, h, n - 1);
      Distribute(a, Sum(f, n - 1), f(n - 1), Sum(f, n));
    }
  }

  ghost predicate BoundedBy(a: real, f: int -> real, g: int -> real, n: nat) {
    forall i :: 0 <= i < n ==> f(i) <= a * g(i)
  }

  /** Terms bounded by a times other terms: the sum is bounded by a times any bound on theirs. */
  lemma {:induction false} SumScaledBound(a: real, f: int -> real, g: int -> real, n: nat, cap: real)
    requires a >= 0.0 && Sum(g, n) <= cap && BoundedBy(a, f, g, n)
    ensures Sum(f, n) <= a * cap
  {
    var h := i => a * g(i);
    SumMono(f, h, n);
    SumScale(a, g, h, n);
    ScaleLe(a, Sum(g, n), cap, Sum(h, n));
  }

  lemma {:induction false} ScaleLe(a: real, s: real, cap: real, t: real)
    requires a >= 0.0 && s <= cap && t == a * s
    ensures t <= a * cap
  {
    MulLe(a, s, cap);
  }

  lemma {:induction false} MulLe(a: real, b: real, b': real)
    requires a >= 0.0 && b <= b'
    ensures a * b <= a * b'
  {
  }

  lemma {:induction false} SumAbs(f: int -> real, g: int -> real, n: nat)
    requires forall i :: 0 <= i < n ==> g(i) == Abs(f(i))
    ensures Abs(Sum(f, n)) <= Sum(g, n)
  {
    if n > 0 {
      SumAbs(f, g, n - 1);
    }
  }

  /** Leaving out one index: the rest is bounded by the rest of the absolute values. */
  lemma {:induction false} SumAbsBut(f: int -> real, g: int -> real, n: nat, k: nat)
    requires k < n
    requires forall i :: 0 <= i < n ==> g(i) == Abs(f(i))
    ensures Abs(Sum(f, n) - f(k)) <= Sum(g, n) - g(k)
  {
    if k == n - 1 {
      SumAbs(f, g, n - 1);
    } else {
      SumAbsBut(f, g, n - 1, k);
    }
  }

  /** One nonnegative term never exceeds the whole sum. */
  lemma {:induction false} SumNonneg(f: int -> real, n: nat)
    requires forall i :: 0 <= i < n ==> f(i) >= 0.0
    ensures Sum(f, n) >= 0.0
    ensures forall k :: 0 <= k < n ==> f(k) <= Sum(f, n)
  {
    if n > 0 {
      SumNonneg(f, n - 1);
    }
  }

  /** A double sum may be taken rows first or columns first. */
  lemma {:induction false} SumSwap(f: (int, int) -> real, m: nat, n: nat)
    ensures Sum(i => Sum(j => f(i, j), n), m) == Sum(j => Sum(i => f(i, j), m), n)
  {
    if m == 0 {
      SumExt(j => Sum(i => f(i, j), m), j => 0.0, n);
      SumConst(0.0, n);
    } else {
      SumSwap(f, m - 1, n);
      SumAdd(j => Sum(i => f(i, j), m - 1), j => f(m - 1, j), j => Sum(i => f(i, j), m), n);
    }
  }

  lemma {:induction false} PowAdd(b: real, j: nat, k: nat)
    ensures Pow(b, j + k) == Pow(b, j) * Pow(b, k)
  {
    if j > 0 {
      PowAdd(b, j - 1, k);
    }
  }

  lemma {:induction false} MulUnit(a: real, b: real)
    requires a >= 0.0 && 0.0 <= b <= 1.0
    ensures 0.0 <= a * b <= a
  {
    MulNonneg(a, b);
    MulBelow(a, b);
  }

  lemma {:induction false} MulNonneg(a: real, b: real)
    requires a >= 0.0 && b >= 0.0
    ensures a * b >= 0.0
  {
  }

  lemma {:induction false} MulBelow(a: real, b: real)
    requires a >= 0.0 && b <= 1.0
    ensures a * b <= a
  {
  }

  lemma {:induction false} PowUnit(b: real, k: nat)
    requires 0.0 <= b < 1.0
    ensures 0.0 <= Pow(b, k) <= 1.0
  {
    if k > 0 {
      PowUnit(b, k - 1);
      MulUnit(b, Pow(b, k - 1));
    }
  }

  lemma {:induction false} PowDouble(b: real, k: nat)
    ensures Pow(b, 2 * k) == Pow(b, k) * Pow(b, k)
  {
    PowAdd(b, k, k);
    assert 2 * k == k + k;
  }
}
