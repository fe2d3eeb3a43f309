/** Model of `pagerank`, `uniform_teleport` and `personalize_for_changed` (code-graph/src/rank.rs),
over exact reals. */
module PageRank {
  import opened RealSums
  import opened Vectors
  import opened Sorting
  import opened CallGraph
  import opened Transpose
  import C = Contraction
  import D = Damping

  const PAGERANK_ALPHA := 0.85
  const PAGERANK_MAX_ITER: nat := 100
  const PAGERANK_TOL := 0.000001

  // ----- set-up: teleport vector and outgoing arcs -----

  function TeleWeights(names: seq<string>, teleport: map<string, real>): int -> real {
    i => if 0 <= i < |names| && names[i] in teleport then teleport[names[i]] else 0.0
  }

  /** The teleport vector in index order, normalised; uniform when there is nothing to normalise. */
  function Tele(names: seq<string>, teleport: map<string, real>): (tele: seq<real>)
    ensures |tele| == |names|
  {
    var n, weights := |names|, TeleWeights(names, teleport);
    var sum := Sum(weights, n);
    seq(n, i requires 0 <= i < n => if sum > 0.0 then weights(i) / sum else 1.0 / n as real)
  }

  /** Targets of the edges leaving u, with repetition. */
  function Targets(edges: seq<Edge>, u: nat): seq<nat> {
    if edges == [] then []
    else Targets(edges[..|edges| - 1], u) +
         (if edges[|edges| - 1].src == u then [edges[|edges| - 1].dst] else [])
  }

  /** Weight of the edge from u to v that was added last; 1 when there is none. */
  function FindWeight(edges: seq<Edge>, u: nat, v: nat): real {
    if edges == [] then 1.0
    else if edges[|edges| - 1].src == u && edges[|edges| - 1].dst == v then edges[|edges| - 1].weight
    else FindWeight(edges[..|edges| - 1], u, v)
  }

  /** The arcs leaving u in the order in which the program lists them. */
  function Outs(g: Graph, u: nat): (arcs: seq<Arc>)
  {
    var nbrs := Sort(NatLe, Targets(g.edges, u));
    seq(|nbrs|, i requires 0 <= i < |nbrs| => Arc(nbrs[i], FindWeight(g.edges, u, nbrs[i])))
  }

  function AllOuts(g: Graph): (outs: seq<seq<Arc>>)
    ensures |outs| == |g.names|
  {
    seq(|g.names|, u requires 0 <= u < |g.names| => Outs(g, u))
  }

  // ----- specification of the result -----

  /** One pass of the power iteration. */
  function PassMap(outs: seq<seq<Arc>>, tele: seq<real>, alpha: real): seq<real> -> seq<real> {
    D.Pass(Shares(outs, tele), tele, alpha)
  }

  function PassCount(outs: seq<seq<Arc>>, tele: seq<real>, alpha: real, maxIter: nat, tol: real): (p: nat)
    ensures p <= maxIter
  {
    C.Passes(PassMap(outs, tele, alpha), MaxChange(|tele|), tele, tol, 0, maxIter)
  }

  function RankVector(outs: seq<seq<Arc>>, tele: seq<real>, alpha: real, maxIter: nat, tol: real): seq<real> {
    C.Iterate(PassMap(outs, tele, alpha), tele, PassCount(outs, tele, alpha, maxIter, tol))
  }

  /** The largest change made by the last pass before the result. */
  function LastChange(outs: seq<seq<Arc>>, tele: seq<real>, alpha: real, p: nat): real
    requires p > 0
  {
    MaxChange(|tele|)(C.Iterate(PassMap(outs, tele, alpha), tele, p),
                      C.Iterate(PassMap(outs, tele, alpha), tele, p - 1))
  }

  /** Collecting pairs into a map: the last of equal names wins. */
  function Named(names: seq<string>, x: seq<real>): (m: map<string, real>)
    ensures m.Keys == set s | s in names
  {
    if names == [] then map[]
    else
      assert names == names[..|names| - 1] + [names[|names| - 1]];
      Named(names[..|names| - 1], x)[names[|names| - 1] := At(x, |names| - 1)]
  }

  lemma {:induction false} NamedLookup(names: seq<string>, x: seq<real>, i: nat)
    requires i < |names| && forall j :: i < j < |names| ==> names[j] != names[i]
    ensures names[i] in Named(names, x) && Named(names, x)[names[i]] == At(x, i)
  {
    if i < |names| - 1 {
      NamedLookup(names[..|names| - 1], x, i);
    }
  }

  // ----- the set-up is sound -----

  ghost predicate NonnegativeTeleport(teleport: map<string, real>) {
    forall s :: s in teleport ==> teleport[s] >= 0.0
  }

  lemma {:induction false} ScaleToOne(f: int -> real, n: nat, g: int -> real)
    requires Sum(f, n) > 0.0 && forall i :: 0 <= i < n ==> f(i) >= 0.0
    requires forall i :: 0 <= i < n ==> g(i) == f(i) / Sum(f, n)
    ensures Sum(g, n) == 1.0 && forall i :: 0 <= i < n ==> g(i) >= 0.0
  {
    var inv := Inverse(Sum(f, n));
    forall i | 0 <= i < n ensures g(i) == inv * f(i) && g(i) >= 0.0 {
      DivByInverse(f(i), Sum(f, n), inv);
    }
    SumScale(inv, f, g, n);
  }

  /** Whatever the weights, the vector in use is a distribution. */
  lemma {:induction false} TeleIsDistribution(names: seq<string>, teleport: map<string, real>)
    requires names != [] && NonnegativeTeleport(teleport)
    ensures Distribution(Tele(names, teleport))
  {
    var n, weights, tele := |names|, TeleWeights(names, teleport), Tele(names, teleport);
    if Sum(weights, n) > 0.0 {
      ScaleToOne(weights, n, Coord(tele));
      forall i | 0 <= i < n ensures tele[i] >= 0.0 {
        assert Coord(tele)(i) == tele[i];
      }
    } else {
      UniformIsDistribution(tele);
    }
  }

  lemma {:induction false} UniformIsDistribution(x: seq<real>)
    requires x != [] && forall i :: 0 <= i < |x| ==> x[i] == 1.0 / |x| as real
    ensures Distribution(x)
  {
    SumExt(Coord(x), i => 1.0 / |x| as real, |x|);
    SumConst(1.0 / |x| as real, |x|);
  }

  ghost predicate NonnegativeWeights(g: Graph) {
    forall e :: e in g.edges ==> e.weight >= 0.0
  }

  lemma {:induction false} TargetsInRange(edges: seq<Edge>, u: nat, n: nat)
    requires forall e :: e in edges ==> e.dst < n
    ensures forall v :: v in Targets(edges, u) ==> v < n
  {
    if edges != [] {
      assert edges[|edges| - 1] in edges;
      TargetsInRange(edges[..|edges| - 1], u, n);
    }
  }

  lemma {:induction false} FoundWeightNonneg(edges: seq<Edge>, u: nat, v: nat)
    requires forall e :: e in edges ==> e.weight >= 0.0
    ensures FindWeight(edges, u, v) >= 0.0
  {
    if edges != [] {
      assert edges[|edges| - 1] in edges;
      FoundWeightNonneg(edges[..|edges| - 1], u, v);
    }
  }

  lemma {:induction false} OutsAreProper(g: Graph)
    requires Valid(g) && NonnegativeWeights(g)
    ensures Proper(AllOuts(g))
  {
    forall u | 0 <= u < |g.names| ensures ProperArcs(Outs(g, u), |g.names|) {
      var nbrs := Sort(NatLe, Targets(g.edges, u));
      SortMembers(NatLe, Targets(g.edges, u));
      TargetsInRange(g.edges, u, |g.names|);
      forall i | 0 <= i < |nbrs| ensures nbrs[i] < |g.names| && FindWeight(g.edges, u, nbrs[i]) >= 0.0 {
        assert nbrs[i] in nbrs;
        FoundWeightNonneg(g.edges, u, nbrs[i]);
      }
    }
  }

  // ----- main results -----

  /** The result is a probability distribution in which every node has at least its teleport share. */
  lemma {:induction false} RanksAreDistribution(outs: seq<seq<Arc>>, tele: seq<real>, alpha: real, maxIter: nat,
                                                tol: real)
    requires Proper(outs) && |outs| == |tele| && Distribution(tele) && 0.0 <= alpha < 1.0
    ensures var x := RankVector(outs, tele, alpha, maxIter, tol);
            |x| == |tele| && Distribution(x) && forall v :: 0 <= v < |x| ==> x[v] >= (1.0 - alpha) * tele[v]
  {
    SharesAreStochastic(outs, tele);
    D.IteratesAreDistributions(Shares(outs, tele), tele, alpha, PassCount(outs, tele, alpha, maxIter, tol));
  }

  /** Pass p changes no rank by more than alpha^p. */
  lemma {:induction false} ChangeBound(outs: seq<seq<Arc>>, tele: seq<real>, alpha: real, p: nat)
    requires Proper(outs) && |outs| == |tele| && Distribution(tele) && 0.0 <= alpha < 1.0 && p > 0
    ensures LastChange(outs, tele, alpha, p) <= Pow(alpha, p)
  {
    SharesAreStochastic(outs, tele);
    D.ChangeBound(Shares(outs, tele), tele, alpha, p - 1);
  }

  /** As soon as alpha^m is below the tolerance for some m within the cap, the loop stops within m
      passes and because of the tolerance. */
  lemma {:induction false} StopsByTolerance(outs: seq<seq<Arc>>, tele: seq<real>, alpha: real, maxIter: nat,
                                            tol: real, m: nat)
    requires Proper(outs) && |outs| == |tele| && Distribution(tele) && 0.0 <= alpha < 1.0
    requires 0 < m <= maxIter && Pow(alpha, m) < tol
    ensures var p := PassCount(outs, tele, alpha, maxIter, tol);
            0 < p <= m && LastChange(outs, tele, alpha, p) < tol
  {
    ChangeBound(outs, tele, alpha, m);
    SmallChangeStops(outs, tele, alpha, maxIter, tol, m);
  }

  lemma {:induction false} SmallChangeStops(outs: seq<seq<Arc>>, tele: seq<real>, alpha: real, maxIter: nat,
                                            tol: real, m: nat)
    requires 0 < m <= maxIter && LastChange(outs, tele, alpha, m) < tol
    ensures var p := PassCount(outs, tele, alpha, maxIter, tol);
            0 < p <= m && LastChange(outs, tele, alpha, p) < tol
  {
    C.StopsByTolerance(PassMap(outs, tele, alpha), MaxChange(|tele|), tele, tol, 0, m, maxIter);
  }

  /** With the shipped constants the cap of 100 passes never cuts the loop off: it stops after at most
      86, for every graph with nonnegative weights and every teleport distribution. */
  lemma {:induction false} ShippedConstantsStop(outs: seq<seq<Arc>>, tele: seq<real>)
    requires Proper(outs) && |outs| == |tele| && Distribution(tele)
    ensures var p := PassCount(outs, tele, PAGERANK_ALPHA, PAGERANK_MAX_ITER, PAGERANK_TOL);
            0 < p <= 86 && LastChange(outs, tele, PAGERANK_ALPHA, p) < PAGERANK_TOL
  {
    AlphaPowers();
    StopsByTolerance(outs, tele, PAGERANK_ALPHA, PAGERANK_MAX_ITER, PAGERANK_TOL, 86);
  }

  lemma {:induction false} SquareBounds(b: real, k: nat, lo: real, hi: real)
    requires 0.0 <= lo <= Pow(b, k) <= hi
    ensures lo * lo <= Pow(b, 2 * k) <= hi * hi
  {
    PowDouble(b, k);
    var p := Pow(b, k);
    MulLe(lo, lo, p);
    MulLe(p, lo, p);
    MulLe(p, p, hi);
    MulLe(hi, p, hi);
  }

  lemma {:induction false} AlphaPowers()
    ensures Pow(PAGERANK_ALPHA, 85) >= PAGERANK_TOL > Pow(PAGERANK_ALPHA, 86)
  {
    var a := PAGERANK_ALPHA;
    assert Pow(a, 5) == 0.4437053125 by {
      assert Pow(a, 2) == 0.7225 && Pow(a, 3) == 0.614125 && Pow(a, 4) == 0.52200625;
    }
    SquareBounds(a, 5, 0.4437053125, 0.4437053125);
    SquareBounds(a, 10, 0.196874404, 0.196874405);
    SquareBounds(a, 20, 0.038759530, 0.038759532);
    SquareBounds(a, 40, 0.0015023011, 0.0015023014);
    PowAdd(a, 80, 5);
    assert Pow(a, 86) == a * Pow(a, 85);
  }

  /** At most one vector is left unchanged by a pass. */
  lemma {:induction false} StationaryUnique(outs: seq<seq<Arc>>, tele: seq<real>, alpha: real, x: seq<real>,
                                            y: seq<real>)
    requires Proper(outs) && |outs| == |tele| && Distribution(tele) && 0.0 <= alpha < 1.0
    requires |x| == |y| == |tele|
    requires PassMap(outs, tele, alpha)(x) == x && PassMap(outs, tele, alpha)(y) == y
    ensures x == y
  {
    SharesAreStochastic(outs, tele);
    D.PassContracts(Shares(outs, tele), tele, alpha);
    C.FixedPointUnique(D.Space(Shares(outs, tele), tele, alpha), x, y);
    L1Zero(x, y);
  }

  lemma {:induction false} LastPassIsShort(outs: seq<seq<Arc>>, tele: seq<real>, alpha: real, p: nat, tol: real,
                                           b: real)
    requires p > 0 && LastChange(outs, tele, alpha, p) < tol && b == |tele| as real * tol
    ensures var T := PassMap(outs, tele, alpha);
            L1Distance(|tele|)(C.Iterate(T, tele, p), C.Iterate(T, tele, p - 1)) <= b
  {
    var T := PassMap(outs, tele, alpha);
    L1BelowMaxGap(|tele|, C.Iterate(T, tele, p), C.Iterate(T, tele, p - 1), tol);
  }

  /** A result reached by the tolerance test, b = n * tol: it is within alpha / (1 - alpha) * b of the
      stationary vector. */
  lemma {:induction false} ResultIsNearLimit(outs: seq<seq<Arc>>, tele: seq<real>, alpha: real, maxIter: nat, tol: real,
                          b: real, limit: seq<real>)
    requires Proper(outs) && |outs| == |tele| && Distribution(tele) && 0.0 <= alpha < 1.0
    requires var p := PassCount(outs, tele, alpha, maxIter, tol); p > 0 && LastChange(outs, tele, alpha, p) < tol
    requires b == |tele| as real * tol && PassMap(outs, tele, alpha)(limit) == limit
    ensures C.Inside(alpha, b, L1Distance(|tele|)(RankVector(outs, tele, alpha, maxIter, tol), limit))
  {
    var p, T := PassCount(outs, tele, alpha, maxIter, tol), PassMap(outs, tele, alpha);
    SharesAreStochastic(outs, tele);
    D.PassContracts(Shares(outs, tele), tele, alpha);
    LastPassIsShort(outs, tele, alpha, p, tol, b);
    C.FixedPointNear(D.Space(Shares(outs, tele), tele, alpha), b, C.Iterate(T, tele, p - 1), limit);
  }

  /** The same radius without assuming that a stationary vector exists: no number k of further passes
      would have left the ball around the result. */
  lemma {:induction false} FurtherPassesStayNear(outs: seq<seq<Arc>>, tele: seq<real>, alpha: real, maxIter: nat,
                                                 tol: real,
                              b: real, k: nat)
    requires Proper(outs) && |outs| == |tele| && Distribution(tele) && 0.0 <= alpha < 1.0
    requires var p := PassCount(outs, tele, alpha, maxIter, tol); p > 0 && LastChange(outs, tele, alpha, p) < tol
    requires b == |tele| as real * tol
    ensures var x := RankVector(outs, tele, alpha, maxIter, tol);
            C.Inside(alpha, b, L1Distance(|tele|)(C.Iterate(PassMap(outs, tele, alpha), x, k), x))
  {
    var p, T := PassCount(outs, tele, alpha, maxIter, tol), PassMap(outs, tele, alpha);
    SharesAreStochastic(outs, tele);
    D.PassContracts(Shares(outs, tele), tele, alpha);
    LastPassIsShort(outs, tele, alpha, p, tol, b);
    C.LaterIteratesNear(D.Space(Shares(outs, tele), tele, alpha), b, C.Iterate(T, tele, p - 1), k);
  }

  // ----- the program -----

  lemma {:induction false} OutsInRange(g: Graph, u: nat)
    requires Valid(g)
    ensures forall i :: 0 <= i < |Outs(g, u)| ==> Outs(g, u)[i].node < |g.names|
  {
    SortMembers(NatLe, Targets(g.edges, u));
    TargetsInRange(g.edges, u, |g.names|);
    forall i | 0 <= i < |Outs(g, u)| ensures Outs(g, u)[i].node < |g.names| {
      assert Outs(g, u)[i].node in Sort(NatLe, Targets(g.edges, u));
    }
  }

  /** Out-weight of one node and its arcs. */
  method ListArcs(g: Graph, u: nat) returns (sum: real, outs: seq<Arc>)
    ensures outs == Outs(g, u) && sum == OutSum(outs, |outs|)
  {
    ghost var all := Outs(g, u);
    var nbrs := Sort(NatLe, Targets(g.edges, u));
    sum, outs := 0.0, [];
    for j := 0 to |nbrs|
      invariant outs == all[..j] && sum == OutSum(all, j)
    {
      var w := FindWeight(g.edges, u, nbrs[j]);
      sum := sum + w;
      outs := outs + [Arc(nbrs[j], w)];
    }
    assert all[..|nbrs|] == all;
  }

  /** Builds, node after node, the arrays the passes work on. */
  method BuildAdjacency(g: Graph) returns (outSum: array<real>, incoming: array<seq<Arc>>)
    requires Valid(g)
    ensures fresh(outSum) && fresh(incoming)
    ensures outSum[..] == OutSums(AllOuts(g))
    ensures Turned(AllOuts(g), incoming[..], |g.names|)
  {
    ghost var all := AllOuts(g);
    ghost var sums := OutSums(all);
    var n := |g.names|;
    outSum := new real[n](_ => 0.0);
    incoming := new seq<Arc>[n](_ => []);
    for pos := 0 to n
      invariant outSum[..pos] == sums[..pos]
      invariant Turned(all, incoming[..], pos)
    {
      var sum, outs := ListArcs(g, pos);
      assert outs == all[pos] && sum == sums[pos];
      OutsInRange(g, pos);
      outSum[pos] := sum;
      EnterArcs(incoming, all, outs, pos);
      assert outSum[..pos + 1] == outSum[..pos] + [sum] == sums[..pos + 1];
    }
    assert outSum[..] == outSum[..n] && sums == sums[..n];
  }

  /** The incoming lists hold the arcs of the first k nodes. */
  ghost predicate Turned(all: seq<seq<Arc>>, lists: seq<seq<Arc>>, k: nat)
    requires k <= |all|
  {
    |lists| == |all| && forall v :: 0 <= v < |lists| ==> lists[v] == Incoming(all, v, k)
  }

  /** Enter the arcs of node pos into the incoming lists of their targets. */
  method EnterArcs(incoming: array<seq<Arc>>, ghost all: seq<seq<Arc>>, outs: seq<Arc>, pos: nat)
    requires pos < |all| && outs == all[pos]
    requires forall i :: 0 <= i < |outs| ==> outs[i].node < incoming.Length
    requires Turned(all, incoming[..], pos)
    modifies incoming
    ensures Turned(all, incoming[..], pos + 1)
  {
    for j := 0 to |outs|
      invariant forall v :: 0 <= v < incoming.Length ==>
                  incoming[v] == Incoming(all, v, pos) + TurnedArcs(outs, pos, v, j)
    {
      var t := outs[j].node;
      incoming[t] := incoming[t] + [Arc(pos, outs[j].weight)];
      forall v | 0 <= v < incoming.Length
        ensures incoming[v] == Incoming(all, v, pos) + TurnedArcs(outs, pos, v, j + 1)
      {
      }
    }
  }

  /** Flow into one node: its part of the dangling mass plus what its incoming arcs bring. */
  method FlowInto(outSum: array<real>, arcs: seq<Arc>, rank: array<real>, start: real) returns (flow: real)
    requires outSum.Length == rank.Length && forall a :: a in arcs ==> a.node < rank.Length
    ensures flow == start + Whole(ArcShare(outSum[..], rank[..]), arcs)
  {
    ghost var f := ArcShare(outSum[..], rank[..]);
    flow := start;
    for j := 0 to |arcs|
      invariant flow == start + ArcTotal(f, arcs, j)
    {
      var u, w := arcs[j].node, arcs[j].weight;
      assert f(arcs[j]) == if outSum[u] > 0.0 then rank[u] * w / outSum[u] else 0.0;
      if outSum[u] > 0.0 {
        flow := flow + rank[u] * w / outSum[u];
      }
    }
  }

  lemma {:induction false} IncomingInRange(outs: seq<seq<Arc>>, v: int, k: nat)
    requires k <= |outs|
    ensures forall a :: a in Incoming(outs, v, k) ==> a.node < k
  {
    if k > 0 {
      IncomingInRange(outs, v, k - 1);
      TurnedInRange(outs[k - 1], k - 1, v, |outs[k - 1]|);
    }
  }

  lemma {:induction false} TurnedInRange(arcs: seq<Arc>, u: nat, v: int, k: nat)
    requires k <= |arcs|
    ensures forall a :: a in TurnedArcs(arcs, u, v, k) ==> a.node == u
  {
    if k > 0 {
      TurnedInRange(arcs, u, v, k - 1);
    }
  }

  lemma {:induction false} FlowValue(outs: seq<seq<Arc>>, tele: seq<real>, x: seq<real>, v: nat, t: real, m: real,
                  start: real, flow: real)
    requires t == At(tele, v) && m == Sum(DanglingRanks(OutSums(outs), x), |outs|) && start == m * t
    requires flow == start + Whole(ArcShare(OutSums(outs), x), Incoming(outs, v, |outs|))
    ensures flow == D.Flow(Shares(outs, tele), |outs|, Coord(x), v)
  {
    Commute(m, t, start);
    InnerSum(outs, tele, x, v, t, m);
  }

  lemma {:induction false} Commute(a: real, b: real, p: real)
    requires p == a * b
    ensures p == b * a
  {
  }

  lemma {:induction false} StepValue(P: D.Shares, tele: seq<real>, alpha: real, x: seq<real>, v: nat, t: real,
                                     flow: real, r: real)
    requires v < |tele| && t == At(tele, v) && flow == D.Flow(P, |tele|, Coord(x), v)
    requires r == (1.0 - alpha) * t + alpha * flow
    ensures r == D.StepAt(P, tele, alpha, x, v)
  {
  }

  lemma {:induction false} PassLength(outs: seq<seq<Arc>>, tele: seq<real>, alpha: real, x: seq<real>)
    ensures |PassMap(outs, tele, alpha)(x)| == |tele|
  {
  }

  lemma {:induction false} PassAt(outs: seq<seq<Arc>>, tele: seq<real>, alpha: real, x: seq<real>, v: nat)
    requires v < |tele|
    ensures |PassMap(outs, tele, alpha)(x)| == |tele|
    ensures PassMap(outs, tele, alpha)(x)[v] == D.StepAt(Shares(outs, tele), tele, alpha, x, v)
  {
  }

  lemma {:induction false} NextValue(outs: seq<seq<Arc>>, tele: seq<real>, alpha: real, x: seq<real>, v: nat, t: real,
                                     m: real, start: real, flow: real, r: real)
    requires |outs| == |tele| && v < |tele|
    requires t == At(tele, v) && m == Sum(DanglingRanks(OutSums(outs), x), |outs|) && start == m * t
    requires flow == start + Whole(ArcShare(OutSums(outs), x), Incoming(outs, v, |outs|))
    requires r == (1.0 - alpha) * t + alpha * flow
    ensures |PassMap(outs, tele, alpha)(x)| == |tele| && r == PassMap(outs, tele, alpha)(x)[v]
  {
    FlowValue(outs, tele, x, v, t, m, start, flow);
    StepValue(Shares(outs, tele), tele, alpha, x, v, t, flow, r);
    PassAt(outs, tele, alpha, x, v);
  }

  /** The new rank of one node. */
  method NextRank(ghost outs: seq<seq<Arc>>, tele: seq<real>, alpha: real, outSum: array<real>, arcs: seq<Arc>,
                  rank: array<real>, dangling: real, v: nat)
    returns (r: real)
    requires |outs| == |tele| == rank.Length && outSum[..] == OutSums(outs) && v < |tele|
    requires arcs == Incoming(outs, v, |outs|)
    requires dangling == Sum(DanglingRanks(OutSums(outs), rank[..]), |outs|)
    ensures |PassMap(outs, tele, alpha)(rank[..])| == |tele|
    ensures r == PassMap(outs, tele, alpha)(rank[..])[v]
  {
    IncomingInRange(outs, v, |outs|);
    var t := tele[v];
    var start := dangling * t;
    var flow := FlowInto(outSum, arcs, rank, start);
    r := (1.0 - alpha) * t + alpha * flow;
    NextValue(outs, tele, alpha, rank[..], v, t, dangling, start, flow, r);
  }

  lemma {:induction false} MaxGapPrefix(k: nat, x: seq<real>, y: seq<real>, z: seq<real>)
    requires forall i :: 0 <= i < k ==> At(x, i) == At(y, i)
    ensures MaxGap(k, x, z) == MaxGap(k, y, z)
  {
    if k > 0 {
      MaxGapPrefix(k - 1, x, y, z);
    }
  }

  lemma {:induction false} MaxGapStep(v: nat, x: seq<real>, y: seq<real>, r: real, s: real)
    requires v < |x| && v < |y| && r == x[v] && s == y[v]
    ensures MaxGap(v + 1, x, y) == Max(MaxGap(v, x, y), Abs(r - s))
  {
  }

  /** One pass over all nodes. */
  method RunPass(ghost outs: seq<seq<Arc>>, tele: seq<real>, alpha: real, outSum: array<real>,
                 incoming: array<seq<Arc>>, rank: array<real>)
    returns (next: array<real>, delta: real)
    requires |outs| == |tele| == rank.Length && outSum[..] == OutSums(outs) && Turned(outs, incoming[..], |outs|)
    ensures fresh(next) && next[..] == PassMap(outs, tele, alpha)(rank[..])
    ensures delta == MaxChange(|tele|)(next[..], rank[..])
  {
    var n := |tele|;
    ghost var before := rank[..];
    ghost var target := PassMap(outs, tele, alpha)(before);
    PassLength(outs, tele, alpha, before);
    var dangling := Sum(DanglingRanks(outSum[..], rank[..]), n);
    ghost var lists := incoming[..];
    next := new real[n](_ => 0.0);
    delta := 0.0;
    for v := 0 to n
      invariant outSum[..] == OutSums(outs) && rank[..] == before && incoming[..] == lists
      invariant next[..v] == target[..v]
      invariant delta == MaxGap(v, target, before)
    {
      assert incoming[v] == lists[v];
      var r := NextRank(outs, tele, alpha, outSum, incoming[v], rank, dangling, v);
      next[v] := r;
      MaxGapStep(v, target, before, r, rank[v]);
      delta := Max(delta, Abs(r - rank[v]));
      assert next[..v + 1] == next[..v] + [r] == target[..v + 1];
    }
    assert next[..] == next[..n] && target == target[..n];
  }

  method Pagerank(g: Graph, teleport: map<string, real>, alpha: real, maxIter: nat, tol: real)
    returns (ranks: map<string, real>)
    requires Valid(g)
    ensures ranks == Named(g.names, RankVector(AllOuts(g), Tele(g.names, teleport), alpha, maxIter, tol))
  {
    var n := |g.names|;
    if n == 0 {
      return map[];
    }
    var tele := Tele(g.names, teleport);
    var outSum, incoming := BuildAdjacency(g);
    var rank := PowerIteration(AllOuts(g), tele, alpha, maxIter, tol, outSum, incoming);
    ranks := Named(g.names, rank[..]);
  }

  lemma {:induction false} OnePass(T: seq<real> -> seq<real>, n: nat, tele: seq<real>, tol: real, pass: nat,
                                   maxIter: nat, before: seq<real>, after: seq<real>, delta: real)
    requires pass < maxIter && before == C.Iterate(T, tele, pass) && after == T(before)
    requires delta == MaxChange(n)(after, before)
    ensures after == C.Iterate(T, tele, pass + 1)
    ensures C.Passes(T, MaxChange(n), tele, tol, pass, maxIter)
         == if delta < tol then pass + 1 else C.Passes(T, MaxChange(n), tele, tol, pass + 1, maxIter)
  {
  }

  /** The main loop. */
  method PowerIteration(ghost outs: seq<seq<Arc>>, tele: seq<real>, alpha: real, maxIter: nat, tol: real,
                        outSum: array<real>, incoming: array<seq<Arc>>)
    returns (rank: array<real>)
    requires |outs| == |tele| && outSum[..] == OutSums(outs) && Turned(outs, incoming[..], |outs|)
    ensures rank[..] == RankVector(outs, tele, alpha, maxIter, tol)
  {
    ghost var T := PassMap(outs, tele, alpha);
    rank := new real[|tele|](i requires 0 <= i < |tele| => tele[i]);
    assert rank[..] == tele;
    for pass := 0 to maxIter
      invariant rank.Length == |tele| && fresh(rank) && rank[..] == C.Iterate(T, tele, pass)
      invariant C.Passes(T, MaxChange(|tele|), tele, tol, pass, maxIter) == PassCount(outs, tele, alpha, maxIter, tol)
    {
      ghost var before := rank[..];
      var next, delta := RunPass(outs, tele, alpha, outSum, incoming, rank);
      rank := next;
      OnePass(T, |tele|, tele, tol, pass, maxIter, before, rank[..], delta);
      if delta < tol {
        break;
      }
    }
  }
}
