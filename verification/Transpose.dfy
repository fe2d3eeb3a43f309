/** The adjacency of `pagerank` (code-graph/src/rank.rs): outgoing arcs, the incoming lists built
from them, and the proof that summing over incoming lists is summing over outgoing shares. */
module Transpose {
  import opened RealSums
  import opened Vectors
  import D = Damping

  /** The node at one end of an edge together with the weight of that edge. */
  datatype Arc = Arc(node: nat, weight: real)

  /** Total weight of the first k arcs. */
  function OutSum(arcs: seq<Arc>, k: nat): real
    requires k <= |arcs|
  {
    if k == 0 then 0.0 else OutSum(arcs, k - 1) + arcs[k - 1].weight
  }

  /** Total weight of those among the first k arcs that lead to v. */
  function WeightTo(arcs: seq<Arc>, v: int, k: nat): real
    requires k <= |arcs|
  {
    if k == 0 then 0.0
    else WeightTo(arcs, v, k - 1) + (if arcs[k - 1].node == v then arcs[k - 1].weight else 0.0)
  }

  /** Total of f over the first k arcs. */
  function ArcTotal(f: Arc -> real, arcs: seq<Arc>, k: nat): real
    requires k <= |arcs|
  {
    if k == 0 then 0.0 else ArcTotal(f, arcs, k - 1) + f(arcs[k - 1])
  }

  function OutSums(outs: seq<seq<Arc>>): (sums: seq<real>)
    ensures |sums| == |outs|
  {
    seq(|outs|, u requires 0 <= u < |outs| => OutSum(outs[u], |outs[u]|))
  }

  /** How a node passes on its rank: along arcs in proportion to weight, through the teleport vector
      when it is dangling, nowhere when its weights add up to less than zero. */
  function Split(out: real, weight: real, t: real): real {
    if out > 0.0 then weight / out else if out == 0.0 then t else 0.0
  }

  /** The part of u's rank that one pass sends to v. */
  function Share(outs: seq<seq<Arc>>, tele: seq<real>, u: int, v: int): real {
    if 0 <= u < |outs| then Split(OutSum(outs[u], |outs[u]|), WeightTo(outs[u], v, |outs[u]|), At(tele, v))
    else 0.0
  }

  function Shares(outs: seq<seq<Arc>>, tele: seq<real>): D.Shares {
    (u, v) => Share(outs, tele, u, v)
  }

  // ----- incoming lists -----

  /** Those of the first k arcs of u that lead to v, turned around. */
  function TurnedArcs(arcs: seq<Arc>, u: nat, v: int, k: nat): seq<Arc>
    requires k <= |arcs|
  {
    if k == 0 then []
    else TurnedArcs(arcs, u, v, k - 1) + (if arcs[k - 1].node == v then [Arc(u, arcs[k - 1].weight)] else [])
  }

  /** What the incoming list of v holds after the first k nodes have been entered. */
  function Incoming(outs: seq<seq<Arc>>, v: int, k: nat): seq<Arc>
    requires k <= |outs|
  {
    if k == 0 then []
    else Incoming(outs, v, k - 1) + TurnedArcs(outs[k - 1], k - 1, v, |outs[k - 1]|)
  }

  /** The rank a node holds if it is dangling. */
  function DanglingRanks(sums: seq<real>, x: seq<real>): int -> real {
    u => if At(sums, u) == 0.0 then At(x, u) else 0.0
  }

  /** What one incoming arc brings. */
  function ArcShare(sums: seq<real>, x: seq<real>): Arc -> real {
    (a: Arc) => if At(sums, a.node) > 0.0 then At(x, a.node) * a.weight / At(sums, a.node) else 0.0
  }

  // ----- summing over incoming lists -----

  lemma {:induction false} ArcTotalConcat(f: Arc -> real, s: seq<Arc>, t: seq<Arc>, k: nat)
    requires k <= |t|
    ensures ArcTotal(f, s + t, |s| + k) == ArcTotal(f, s, |s|) + ArcTotal(f, t, k)
  {
    if k == 0 {
      ArcTotalPrefix(f, s, t, |s|);
    } else {
      ArcTotalConcat(f, s, t, k - 1);
    }
  }

  lemma {:induction false} ArcTotalPrefix(f: Arc -> real, s: seq<Arc>, t: seq<Arc>, k: nat)
    requires k <= |s|
    ensures ArcTotal(f, s + t, k) == ArcTotal(f, s, k)
  {
    if k > 0 {
      ArcTotalPrefix(f, s, t, k - 1);
    }
  }

  function Whole(f: Arc -> real, arcs: seq<Arc>): real {
    ArcTotal(f, arcs, |arcs|)
  }

  /** If every arc turned around at u brings coef times its weight, all of them together bring coef
      times the total weight. */
  lemma {:induction false} TurnedTotal(f: Arc -> real, coef: real, arcs: seq<Arc>, u: nat, v: int, k: nat)
    requires k <= |arcs| && forall w :: f(Arc(u, w)) == coef * w
    ensures Whole(f, TurnedArcs(arcs, u, v, k)) == coef * WeightTo(arcs, v, k)
  {
    if k > 0 {
      var turned, a := TurnedArcs(arcs, u, v, k - 1), arcs[k - 1];
      TurnedTotal(f, coef, arcs, u, v, k - 1);
      if a.node == v {
        ArcTotalConcat(f, turned, [Arc(u, a.weight)], 1);
        AddProduct(coef, WeightTo(arcs, v, k - 1), a.weight, WeightTo(arcs, v, k));
      } else {
        assert turned + [] == turned;
      }
    }
  }

  lemma {:induction false} AddProduct(c: real, a: real, b: real, s: real)
    requires s == a + b
    ensures c * s == c * a + c * b
  {
  }

  function TurnedTotals(f: Arc -> real, outs: seq<seq<Arc>>, v: int): int -> real {
    u => if 0 <= u < |outs| then Whole(f, TurnedArcs(outs[u], u, v, |outs[u]|)) else 0.0
  }

  lemma {:induction false} IncomingTotal(f: Arc -> real, outs: seq<seq<Arc>>, v: int, k: nat)
    requires k <= |outs|
    ensures Whole(f, Incoming(outs, v, k)) == Sum(TurnedTotals(f, outs, v), k)
  {
    if k > 0 {
      IncomingTotal(f, outs, v, k - 1);
      var t := TurnedArcs(outs[k - 1], k - 1, v, |outs[k - 1]|);
      ArcTotalConcat(f, Incoming(outs, v, k - 1), t, |t|);
    }
  }

  // ----- one node's contribution -----

  lemma {:induction false} DivSwap(r: real, w: real, o: real)
    requires o > 0.0
    ensures r * w / o == (r / o) * w
    ensures r * (w / o) == (r / o) * w
  {
    var q := r / o;
    assert q * o == r;
    assert (q * w) * o == r * w;
  }

  /** What an arc brings per unit of weight. */
  function PerWeight(out: real, r: real): real {
    if out > 0.0 then r / out else 0.0
  }

  lemma {:induction false} ArcShareIsProportional(sums: seq<real>, x: seq<real>, u: nat, coef: real)
    requires coef == PerWeight(At(sums, u), At(x, u))
    ensures forall w :: ArcShare(sums, x)(Arc(u, w)) == coef * w
  {
    forall w ensures ArcShare(sums, x)(Arc(u, w)) == coef * w {
      if At(sums, u) > 0.0 {
        DivSwap(At(x, u), w, At(sums, u));
      }
    }
  }

  lemma {:induction false} NodeScalar(r: real, out: real, weight: real, t: real, coef: real, d: real, share: real)
    requires coef == PerWeight(out, r) && share == Split(out, weight, t)
    requires d == if out == 0.0 then r else 0.0
    ensures r * share == t * d + coef * weight
  {
    if out > 0.0 {
      DivSwap(r, weight, out);
    }
  }

  /** What node u contributes to the rank of v. */
  lemma {:induction false} NodeTerm(f: Arc -> real, arcs: seq<Arc>, v: int, u: nat, r: real, t: real, coef: real,
                                    d: real, share: real)
    requires coef == PerWeight(OutSum(arcs, |arcs|), r) && forall w :: f(Arc(u, w)) == coef * w
    requires share == Split(OutSum(arcs, |arcs|), WeightTo(arcs, v, |arcs|), t)
    requires d == if OutSum(arcs, |arcs|) == 0.0 then r else 0.0
    ensures r * share == t * d + Whole(f, TurnedArcs(arcs, u, v, |arcs|))
  {
    TurnedTotal(f, coef, arcs, u, v, |arcs|);
    NodeScalar(r, OutSum(arcs, |arcs|), WeightTo(arcs, v, |arcs|), t, coef, d, share);
  }

  predicate Meets(r: real, share: real, t: real, d: real, turned: real) {
    r * share == t * d + turned
  }

  lemma {:induction false} TermSplits(outs: seq<seq<Arc>>, x: seq<real>, v: int, u: nat, r: real, t: real, d: real,
                                      share: real)
    requires u < |outs| && r == At(x, u)
    requires d == DanglingRanks(OutSums(outs), x)(u)
    requires share == Split(OutSum(outs[u], |outs[u]|), WeightTo(outs[u], v, |outs[u]|), t)
    ensures Meets(r, share, t, d, TurnedTotals(ArcShare(OutSums(outs), x), outs, v)(u))
  {
    var coef := PerWeight(At(OutSums(outs), u), r);
    ArcShareIsProportional(OutSums(outs), x, u, coef);
    NodeTerm(ArcShare(OutSums(outs), x), outs[u], v, u, r, t, coef, d, share);
  }

  lemma {:induction false} SameProduct(a: real, b: real, a': real, b': real)
    requires a == a' && b == b'
    ensures a * b == a' * b'
  {
  }

  /** The u-th term of the flow into v. */
  lemma {:induction false} FlowTerm(outs: seq<seq<Arc>>, tele: seq<real>, x: seq<real>, v: int, u: nat, r: real,
                                    share: real)
    requires r == At(x, u) && share == Share(outs, tele, u, v)
    ensures D.Terms(Shares(outs, tele), Coord(x), v)(u) == r * share
  {
    SameProduct(Coord(x)(u), Shares(outs, tele)(u, v), r, share);
  }

  ghost predicate SplitsAt(t: real, dangling: int -> real, turned: int -> real, terms: int -> real, u: int) {
    terms(u) == t * dangling(u) + turned(u)
  }

  ghost predicate AllSplit(n: nat, t: real, dangling: int -> real, turned: int -> real, terms: int -> real) {
    forall u :: 0 <= u < n ==> SplitsAt(t, dangling, turned, terms, u)
  }

  lemma {:induction false} FlowTermSplits(outs: seq<seq<Arc>>, tele: seq<real>, x: seq<real>, v: int, u: nat, t: real)
    requires u < |outs| && t == At(tele, v)
    ensures SplitsAt(t, DanglingRanks(OutSums(outs), x), TurnedTotals(ArcShare(OutSums(outs), x), outs, v),
                     D.Terms(Shares(outs, tele), Coord(x), v), u)
  {
    var share, d := Share(outs, tele, u, v), DanglingRanks(OutSums(outs), x)(u);
    TermSplits(outs, x, v, u, At(x, u), t, d, share);
    FlowTerm(outs, tele, x, v, u, At(x, u), share);
    SplitsBy(t, DanglingRanks(OutSums(outs), x), TurnedTotals(ArcShare(OutSums(outs), x), outs, v),
             D.Terms(Shares(outs, tele), Coord(x), v), u, At(x, u), share);
  }

  lemma {:induction false} SplitsBy(t: real, dangling: int -> real, turned: int -> real, terms: int -> real, u: int,
                                    r: real, share: real)
    requires Meets(r, share, t, dangling(u), turned(u)) && terms(u) == r * share
    ensures SplitsAt(t, dangling, turned, terms, u)
  {
  }

  lemma {:induction false} SumOfSplits(outs: seq<seq<Arc>>, f: Arc -> real, v: int, t: real, dangling: int -> real,
                    terms: int -> real, m: real)
    requires AllSplit(|outs|, t, dangling, TurnedTotals(f, outs, v), terms) && m == Sum(dangling, |outs|)
    ensures Sum(terms, |outs|) == t * m + Whole(f, Incoming(outs, v, |outs|))
  {
    var turned := TurnedTotals(f, outs, v);
    forall u | 0 <= u < |outs| ensures terms(u) == t * dangling(u) + 1.0 * turned(u) {
      assert SplitsAt(t, dangling, turned, terms, u);
    }
    SumLinear(t, dangling, 1.0, turned, terms, |outs|);
    IncomingTotal(f, outs, v, |outs|);
  }

  lemma {:induction false} FlowTermsSplit(outs: seq<seq<Arc>>, tele: seq<real>, x: seq<real>, v: int, t: real)
    requires t == At(tele, v)
    ensures AllSplit(|outs|, t, DanglingRanks(OutSums(outs), x), TurnedTotals(ArcShare(OutSums(outs), x), outs, v),
                     D.Terms(Shares(outs, tele), Coord(x), v))
  {
    forall u | 0 <= u < |outs|
      ensures SplitsAt(t, DanglingRanks(OutSums(outs), x), TurnedTotals(ArcShare(OutSums(outs), x), outs, v),
                       D.Terms(Shares(outs, tele), Coord(x), v), u)
    {
      FlowTermSplits(outs, tele, x, v, u, t);
    }
  }

  /** The program's inner sum is the flow of the specification: transposition loses nothing and the
      dangling mass m goes back in. */
  lemma {:induction false} InnerSum(outs: seq<seq<Arc>>, tele: seq<real>, x: seq<real>, v: int, t: real, m: real)
    requires t == At(tele, v) && m == Sum(DanglingRanks(OutSums(outs), x), |outs|)
    ensures D.Flow(Shares(outs, tele), |outs|, Coord(x), v)
         == t * m + Whole(ArcShare(OutSums(outs), x), Incoming(outs, v, |outs|))
  {
    FlowTermsSplit(outs, tele, x, v, t);
    SumOfSplits(outs, ArcShare(OutSums(outs), x), v, t, DanglingRanks(OutSums(outs), x),
                D.Terms(Shares(outs, tele), Coord(x), v), m);
  }

  // ----- the shares of a node add up to one -----

  /** Nonnegative weights on arcs to existing nodes. */
  ghost predicate ProperArcs(arcs: seq<Arc>, n: nat) {
    forall i :: 0 <= i < |arcs| ==> arcs[i].node < n && arcs[i].weight >= 0.0
  }

  ghost predicate Proper(outs: seq<seq<Arc>>) {
    forall u :: 0 <= u < |outs| ==> ProperArcs(outs[u], |outs|)
  }

  function WeightsTo(arcs: seq<Arc>, k: nat): int -> real
    requires k <= |arcs|
  {
    v => WeightTo(arcs, v, k)
  }

  function Spike(w: real, v: int): int -> real {
    j => if j == v then w else 0.0
  }

  lemma {:induction false} SpikeSum(w: real, v: nat, n: nat)
    ensures Sum(Spike(w, v), n) == if v < n then w else 0.0
  {
    if n > 0 {
      SpikeSum(w, v, n - 1);
    }
  }

  lemma {:induction false} ArcsSplitByTarget(arcs: seq<Arc>, n: nat, k: nat)
    requires ProperArcs(arcs, n) && k <= |arcs|
    ensures Sum(WeightsTo(arcs, k), n) == OutSum(arcs, k)
    ensures OutSum(arcs, k) >= 0.0 && forall v :: 0.0 <= WeightTo(arcs, v, k)
  {
    if k == 0 {
      SumExt(WeightsTo(arcs, 0), i => 0.0, n);
      SumConst(0.0, n);
    } else {
      ArcsSplitByTarget(arcs, n, k - 1);
      SpikeSum(arcs[k - 1].weight, arcs[k - 1].node, n);
      SumLinear(1.0, WeightsTo(arcs, k - 1), 1.0, Spike(arcs[k - 1].weight, arcs[k - 1].node), WeightsTo(arcs, k), n);
    }
  }

  lemma {:induction false} Inverse(b: real) returns (inv: real)
    requires b > 0.0
    ensures inv * b == 1.0 && inv >= 0.0
  {
    inv := 1.0 / b;
  }

  lemma {:induction false} DivByInverse(a: real, b: real, inv: real)
    requires b > 0.0 && inv * b == 1.0 && inv >= 0.0 && a >= 0.0
    ensures a / b == inv * a && a / b >= 0.0
  {
    var q := a / b;
    assert q * b == a;
    assert inv * (q * b) == q * (inv * b);
  }

  /** Row of a node with out-weight: its arcs in proportion. */
  lemma {:induction false} ProportionalRow(arcs: seq<Arc>, n: nat, row: int -> real, out: real)
    requires ProperArcs(arcs, n) && out == OutSum(arcs, |arcs|) && out > 0.0
    requires forall v :: row(v) == WeightTo(arcs, v, |arcs|) / out
    ensures (forall v :: row(v) >= 0.0) && Sum(row, n) == 1.0
  {
    ArcsSplitByTarget(arcs, n, |arcs|);
    var inv := Inverse(out);
    forall v ensures row(v) == inv * WeightsTo(arcs, |arcs|)(v) && row(v) >= 0.0 {
      DivByInverse(WeightTo(arcs, v, |arcs|), out, inv);
    }
    SumScale(inv, WeightsTo(arcs, |arcs|), row, n);
  }

  function Row(outs: seq<seq<Arc>>, tele: seq<real>, u: nat): int -> real {
    v => Share(outs, tele, u, v)
  }

  lemma {:induction false} RowIsDistribution(outs: seq<seq<Arc>>, tele: seq<real>, u: nat)
    requires u < |outs| && ProperArcs(outs[u], |outs|) && |outs| == |tele| && Distribution(tele)
    ensures forall v :: Share(outs, tele, u, v) >= 0.0
    ensures Sum(Row(outs, tele, u), |outs|) == 1.0
  {
    var row, out := Row(outs, tele, u), OutSum(outs[u], |outs[u]|);
    ArcsSplitByTarget(outs[u], |outs|, |outs[u]|);
    if out > 0.0 {
      ProportionalRow(outs[u], |outs|, row, out);
      forall v ensures Share(outs, tele, u, v) >= 0.0 {
        assert row(v) >= 0.0;
      }
    } else {
      SumExt(row, Coord(tele), |outs|);
    }
  }

  lemma {:induction false} SharesAreStochastic(outs: seq<seq<Arc>>, tele: seq<real>)
    requires Proper(outs) && |outs| == |tele| && Distribution(tele)
    ensures D.Stochastic(Shares(outs, tele), |outs|)
  {
    forall u | 0 <= u < |outs| ensures D.StochasticRow(Shares(outs, tele), |outs|, u) {
      RowIsDistribution(outs, tele, u);
      SumExt(Row(outs, tele, u), D.Row(Shares(outs, tele), u), |outs|);
    }
  }
}
