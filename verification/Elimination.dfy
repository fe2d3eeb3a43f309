/** Nonnegative solutions of x = c + A x for a nonnegative matrix whose columns add up to at most alpha < 1, by
eliminating the last unknown. The stationary rank vector of code-graph/src/rank.rs is one of them. */
module Elimination {
  import opened RealSums

  type Matrix = (int, int) -> real

  function Column(A: Matrix, j: int): int -> real {
    i => A(i, j)
  }

  function RowTerms(A: Matrix, i: int, x: int -> real): int -> real {
    j => A(i, j) * x(j)
  }

  ghost predicate SmallColumn(A: Matrix, alpha: real, n: nat, j: int) {
    (forall i :: 0 <= i < n ==> A(i, j) >= 0.0) && Sum(Column(A, j), n) <= alpha
  }

  ghost predicate Small(A: Matrix, alpha: real, n: nat) {
    forall j :: 0 <= j < n ==> SmallColumn(A, alpha, n, j)
  }

  ghost predicate SolvesRow(A: Matrix, c: int -> real, x: int -> real, n: nat, i: int) {
    x(i) >= 0.0 && x(i) == c(i) + Sum(RowTerms(A, i, x), n)
  }

  ghost predicate Solves(A: Matrix, c: int -> real, x: int -> real, n: nat) {
    forall i :: 0 <= i < n ==> SolvesRow(A, c, x, n, i)
  }

  // ----- the smaller system -----

  /** The system without the unknown m, where q is 1 / (1 - A(m, m)). */
  function Reduced(A: Matrix, m: nat, q: real): Matrix {
    (i, j) => A(i, j) + A(i, m) * (A(m, j) * q)
  }

  function ReducedPart(A: Matrix, c: int -> real, m: nat, q: real): int -> real {
    i => c(i) + A(i, m) * (c(m) * q)
  }

  lemma {:induction false} PivotFacts(a: real, alpha: real) returns (q: real)
    requires 0.0 <= a <= alpha < 1.0
    ensures q > 0.0 && q * (1.0 - a) == 1.0 && (alpha - a) * q <= 1.0
  {
    var p := 1.0 - a;
    q := 1.0 / p;
    assert q * p == 1.0;
    MulLe(q, alpha - a, p);
  }

  lemma {:induction false} SumPlusTimes(f: int -> real, r: real, g: int -> real, h: int -> real, n: nat)
    requires forall i :: 0 <= i < n ==> h(i) == f(i) + r * g(i)
    ensures Sum(h, n) == Sum(f, n) + r * Sum(g, n)
  {
    if n > 0 {
      SumPlusTimes(f, r, g, h, n - 1);
      Distribute(r, Sum(g, n - 1), g(n - 1), Sum(g, n));
    }
  }

  lemma {:induction false} ColumnSum(A: Matrix, m: nat, q: real, j: int, r: real)
    requires r == A(m, j) * q
    ensures Sum(Column(Reduced(A, m, q), j), m) == Sum(Column(A, j), m) + r * Sum(Column(A, m), m)
  {
    forall i | 0 <= i < m ensures Column(Reduced(A, m, q), j)(i) == Column(A, j)(i) + r * Column(A, m)(i) {
      Swap(A(i, m), r);
    }
    SumPlusTimes(Column(A, j), r, Column(A, m), Column(Reduced(A, m, q), j), m);
  }

  lemma {:induction false} ReducedEntry(a: real, d: real, e: real, q: real)
    requires a >= 0.0 && d >= 0.0 && e >= 0.0 && q > 0.0
    ensures a + d * (e * q) >= 0.0
  {
    MulNonneg(e, q);
    MulNonneg(d, e * q);
  }

  /** A column of the smaller system is no larger: what goes through m comes back at most once. */
  lemma {:induction false} ReducedColumn(A: Matrix, alpha: real, m: nat, q: real, j: int)
    requires Small(A, alpha, m + 1) && 0 <= j < m
    requires q > 0.0 && (alpha - A(m, m)) * q <= 1.0
    ensures SmallColumn(Reduced(A, m, q), alpha, m, j)
  {
    assert SmallColumn(A, alpha, m + 1, j) && SmallColumn(A, alpha, m + 1, m);
    forall i | 0 <= i < m ensures Reduced(A, m, q)(i, j) >= 0.0 {
      ReducedEntry(A(i, j), A(i, m), A(m, j), q);
    }
    var r := A(m, j) * q;
    ColumnSum(A, m, q, j, r);
    Through(Sum(Column(A, j), m), Sum(Column(A, m), m), A(m, j), A(m, m), alpha, q, r);
  }

  lemma {:induction false} Swap(a: real, b: real)
    ensures a * b == b * a
  {
  }

  lemma {:induction false} Through(f: real, g: real, a: real, d: real, alpha: real, q: real, r: real)
    requires a >= 0.0 && q > 0.0 && r == a * q
    requires f + a <= alpha && g + d <= alpha && (alpha - d) * q <= 1.0
    ensures f + r * g <= alpha
  {
    Passed(a, q, alpha - d, g, r, (alpha - d) * q);
  }

  lemma {:induction false} Passed(a: real, q: real, s: real, g: real, r: real, k: real)
    requires a >= 0.0 && q > 0.0 && r == a * q && g <= s && k == s * q && k <= 1.0
    ensures r * g <= a
  {
    MulNonneg(a, q);
    MulLe(r, g, s);
    Regroup(a, q, s, r);
    MulBelow(a, k);
  }

  lemma {:induction false} Regroup(a: real, q: real, s: real, r: real)
    requires r == a * q
    ensures r * s == a * (s * q)
  {
  }

  lemma {:induction false} ReducedIsSmall(A: Matrix, alpha: real, m: nat, q: real)
    requires Small(A, alpha, m + 1) && q > 0.0 && (alpha - A(m, m)) * q <= 1.0
    ensures Small(Reduced(A, m, q), alpha, m)
  {
    forall j | 0 <= j < m ensures SmallColumn(Reduced(A, m, q), alpha, m, j) {
      ReducedColumn(A, alpha, m, q, j);
    }
  }

  // ----- back to the larger one -----

  function Extended(y: int -> real, m: nat, last: real): int -> real {
    i => if i == m then last else y(i)
  }

  lemma {:induction false} ExtendedSum(A: Matrix, y: int -> real, m: nat, last: real, i: int)
    ensures Sum(RowTerms(A, i, Extended(y, m, last)), m + 1) == Sum(RowTerms(A, i, y), m) + A(i, m) * last
  {
    SumExt(RowTerms(A, i, Extended(y, m, last)), RowTerms(A, i, y), m);
  }

  lemma {:induction false} RowSum(A: Matrix, y: int -> real, m: nat, q: real, i: int, r: real)
    requires r == A(i, m) * q
    ensures Sum(RowTerms(Reduced(A, m, q), i, y), m) == Sum(RowTerms(A, i, y), m) + r * Sum(RowTerms(A, m, y), m)
  {
    forall j | 0 <= j < m
      ensures RowTerms(Reduced(A, m, q), i, y)(j) == RowTerms(A, i, y)(j) + r * RowTerms(A, m, y)(j)
    {
      TermParts(A(i, j), A(i, m), A(m, j), q, y(j), r);
    }
    SumPlusTimes(RowTerms(A, i, y), r, RowTerms(A, m, y), RowTerms(Reduced(A, m, q), i, y), m);
  }

  /** A row of the smaller system, with the last unknown put back. */
  lemma {:induction false} ExtendedRow(A: Matrix, c: int -> real, y: int -> real, m: nat, q: real, last: real, i: int)
    requires 0 <= i < m && SolvesRow(Reduced(A, m, q), ReducedPart(A, c, m, q), y, m, i)
    requires last == (c(m) + Sum(RowTerms(A, m, y), m)) * q
    ensures SolvesRow(A, c, Extended(y, m, last), m + 1, i)
  {
    var r := A(i, m) * q;
    RowSum(A, y, m, q, i, r);
    ExtendedSum(A, y, m, last, i);
    PutBack(A(i, m), c(m), Sum(RowTerms(A, m, y), m), q, r, last);
  }

  lemma {:induction false} TermParts(a: real, d: real, e: real, q: real, y: real, r: real)
    requires r == d * q
    ensures (a + d * (e * q)) * y == a * y + r * (e * y)
  {
    Regroup(d, q, e, r);
    Swap(e, q);
    Expand(a, r * e, y);
    Triple(r, e, y);
  }

  lemma {:induction false} Expand(a: real, b: real, y: real)
    ensures (a + b) * y == a * y + b * y
  {
  }

  lemma {:induction false} Triple(a: real, b: real, c: real)
    ensures (a * b) * c == a * (b * c)
  {
  }

  lemma {:induction false} PutBack(d: real, c: real, s: real, q: real, r: real, last: real)
    requires r == d * q && last == (c + s) * q
    ensures d * (c * q) + r * s == d * last
  {
    Regroup(d, q, c, r);
    Distribute(r, c, s, c + s);
    Regroup(d, q, c + s, r);
  }

  lemma {:induction false} LastRow(A: Matrix, c: int -> real, y: int -> real, m: nat, q: real, last: real)
    requires q > 0.0 && q * (1.0 - A(m, m)) == 1.0 && c(m) >= 0.0 && Sum(RowTerms(A, m, y), m) >= 0.0
    requires last == (c(m) + Sum(RowTerms(A, m, y), m)) * q
    ensures SolvesRow(A, c, Extended(y, m, last), m + 1, m)
  {
    var s := c(m) + Sum(RowTerms(A, m, y), m);
    MulNonneg(s, q);
    ExtendedSum(A, y, m, last, m);
    Unwind(s, q, A(m, m), last);
  }

  lemma {:induction false} Unwind(s: real, q: real, a: real, last: real)
    requires q * (1.0 - a) == 1.0 && last == s * q
    ensures last == s + a * last
  {
    Triple(s, q, 1.0 - a);
    Expand(1.0, -a, last);
    Swap(last, 1.0 - a);
    Swap(a, last);
  }

  lemma {:induction false} RowNonneg(A: Matrix, alpha: real, y: int -> real, m: nat)
    requires Small(A, alpha, m + 1) && forall j :: 0 <= j < m ==> y(j) >= 0.0
    ensures Sum(RowTerms(A, m, y), m) >= 0.0
  {
    forall j | 0 <= j < m ensures RowTerms(A, m, y)(j) >= 0.0 {
      assert SmallColumn(A, alpha, m + 1, j);
      MulNonneg(A(m, j), y(j));
    }
    SumNonneg(RowTerms(A, m, y), m);
  }

  lemma {:induction false} Pivot(A: Matrix, alpha: real, m: nat)
    requires Small(A, alpha, m + 1)
    ensures 0.0 <= A(m, m) <= alpha
  {
    assert SmallColumn(A, alpha, m + 1, m);
    SumNonneg(Column(A, m), m);
  }

  lemma {:induction false} ReducedPartNonneg(A: Matrix, alpha: real, c: int -> real, m: nat, q: real)
    requires Small(A, alpha, m + 1) && q > 0.0 && forall i :: 0 <= i <= m ==> c(i) >= 0.0
    ensures forall i :: 0 <= i < m ==> ReducedPart(A, c, m, q)(i) >= 0.0
  {
    assert SmallColumn(A, alpha, m + 1, m);
    MulNonneg(c(m), q);
    forall i | 0 <= i < m ensures ReducedPart(A, c, m, q)(i) >= 0.0 {
      MulNonneg(A(i, m), c(m) * q);
    }
  }

  /** Such a system always has a nonnegative solution. */
  lemma {:induction false} Solve(A: Matrix, alpha: real, c: int -> real, n: nat) returns (x: int -> real)
    requires Small(A, alpha, n) && 0.0 <= alpha < 1.0 && forall i :: 0 <= i < n ==> c(i) >= 0.0
    ensures Solves(A, c, x, n)
  {
    if n == 0 {
      x := i => 0.0;
    } else {
      var m := n - 1;
      Pivot(A, alpha, m);
      var q := PivotFacts(A(m, m), alpha);
      ReducedIsSmall(A, alpha, m, q);
      ReducedPartNonneg(A, alpha, c, m, q);
      var y := Solve(Reduced(A, m, q), alpha, ReducedPart(A, c, m, q), m);
      x := PutBackAll(A, alpha, c, y, m, q);
    }
  }

  lemma {:induction false} PutBackAll(A: Matrix, alpha: real, c: int -> real, y: int -> real, m: nat, q: real)
    returns (x: int -> real)
    requires Small(A, alpha, m + 1) && c(m) >= 0.0 && q > 0.0 && q * (1.0 - A(m, m)) == 1.0
    requires Solves(Reduced(A, m, q), ReducedPart(A, c, m, q), y, m)
    ensures Solves(A, c, x, m + 1)
  {
    var last := (c(m) + Sum(RowTerms(A, m, y), m)) * q;
    x := Extended(y, m, last);
    forall j | 0 <= j < m ensures y(j) >= 0.0 {
      assert SolvesRow(Reduced(A, m, q), ReducedPart(A, c, m, q), y, m, j);
    }
    RowNonneg(A, alpha, y, m);
    var n := m + 1;
    forall i | 0 <= i < n ensures SolvesRow(A, c, x, n, i) {
      if i == m {
        LastRow(A, c, y, m, q, last);
      } else {
        assert SolvesRow(Reduced(A, m, q), ReducedPart(A, c, m, q), y, m, i);
        ExtendedRow(A, c, y, m, q, last, i);
      }
    }
  }
}
