/** The ranking pipeline end to end, and a graph on which the bound on the number of passes is met. */
module Ranking {
  import opened RealSums
  import opened Vectors
  import opened CallGraph
  import opened Sorting
  import opened Transpose
  import opened PageRank
  import opened EdgeShares
  import C = Contraction
  import D = Damping

  /** For every list of call triples with nonnegative confidences and every nonnegative teleport map,
      ranking the call graph with the shipped constants gives every endpoint, and nothing else, a
      rank; the ranks are nonnegative and add up to 1; every function passes its rank on to those it calls in
      proportion to the weights of the edges; and the tolerance, not the cap, ends the loop. */
  lemma {:induction false} RankedCallGraph(sqrt: nat -> real, ts: seq<Triple>, g: Graph, teleport: map<string, real>,
                        ranks: map<string, real>)
    requires IsSquareRoot(sqrt) && NonnegativeConfidences(ts) && IsCallGraph(sqrt, ts, g) && g.names != []
    requires NonnegativeTeleport(teleport)
    requires ranks == Named(g.names, RankVector(AllOuts(g), Tele(g.names, teleport),
                                                PAGERANK_ALPHA, PAGERANK_MAX_ITER, PAGERANK_TOL))
    ensures forall x :: x in ranks <==> Endpoint(ts, x)
    ensures forall i :: 0 <= i < |g.names| ==>
              ranks[g.names[i]] >= (1.0 - PAGERANK_ALPHA) * Tele(g.names, teleport)[i] >= 0.0
    ensures Sum(TeleWeights(g.names, ranks), |g.names|) == 1.0
    ensures forall u :: 0 <= u < |g.names| ==>
              SendsByWeight(g.edges, |g.names|, u, Row(AllOuts(g), Tele(g.names, teleport), u),
                            Coord(Tele(g.names, teleport)))
    ensures var p := PassCount(AllOuts(g), Tele(g.names, teleport), PAGERANK_ALPHA, PAGERANK_MAX_ITER, PAGERANK_TOL);
            0 < p <= 86 && LastChange(AllOuts(g), Tele(g.names, teleport), PAGERANK_ALPHA, p) < PAGERANK_TOL
  {
    SetUp(sqrt, ts, g, teleport);
    RankedNames(g.names, AllOuts(g), Tele(g.names, teleport), ranks);
    ShippedConstantsStop(AllOuts(g), Tele(g.names, teleport));
    forall u | 0 <= u < |g.names|
      ensures SendsByWeight(g.edges, |g.names|, u, Row(AllOuts(g), Tele(g.names, teleport), u),
                            Coord(Tele(g.names, teleport)))
    {
      CallShares(sqrt, ts, g, Tele(g.names, teleport), u);
    }
  }

  lemma {:induction false} SetUp(sqrt: nat -> real, ts: seq<Triple>, g: Graph, teleport: map<string, real>)
    requires IsSquareRoot(sqrt) && NonnegativeConfidences(ts) && IsCallGraph(sqrt, ts, g) && g.names != []
    requires NonnegativeTeleport(teleport)
    ensures Proper(AllOuts(g)) && Distribution(Tele(g.names, teleport))
  {
    WeightsNonneg(sqrt, ts, g);
    OutsAreProper(g);
    TeleIsDistribution(g.names, teleport);
  }

  lemma {:induction false} RankedNames(names: seq<string>, outs: seq<seq<Arc>>, tele: seq<real>, ranks: map<string,
                                       real>)
    requires StrictBy(StringLe, names) && |names| == |tele| == |outs| && Proper(outs) && Distribution(tele)
    requires ranks == Named(names, RankVector(outs, tele, PAGERANK_ALPHA, PAGERANK_MAX_ITER, PAGERANK_TOL))
    ensures forall s :: s in ranks <==> s in names
    ensures forall i :: 0 <= i < |names| ==> ranks[names[i]] >= (1.0 - PAGERANK_ALPHA) * tele[i] >= 0.0
    ensures Sum(TeleWeights(names, ranks), |names|) == 1.0
  {
    RanksAreDistribution(outs, tele, PAGERANK_ALPHA, PAGERANK_MAX_ITER, PAGERANK_TOL);
    RanksByName(names, RankVector(outs, tele, PAGERANK_ALPHA, PAGERANK_MAX_ITER, PAGERANK_TOL), ranks);
  }

  /** Reading a vector back through a map keyed by distinct names. */
  lemma {:induction false} RanksByName(names: seq<string>, x: seq<real>, ranks: map<string, real>)
    requires StrictBy(StringLe, names) && |names| == |x| && ranks == Named(names, x)
    ensures forall s :: s in ranks <==> s in names
    ensures forall i :: 0 <= i < |names| ==> ranks[names[i]] == x[i]
    ensures Sum(TeleWeights(names, ranks), |names|) == Total(x)
  {
    forall i | 0 <= i < |names|
      ensures names[i] in ranks && ranks[names[i]] == x[i]
    {
      NamedLookup(names, x, i);
    }
    SumExt(TeleWeights(names, ranks), Coord(x), |x|);
  }

  // ----- the bound of 86 passes is met -----

  /** Two functions that call each other; the teleport mass sits on the first. */
  const CYCLE := Graph(["a", "b"], [Edge(0, 1, 1.0), Edge(1, 0, 1.0)])
  const CYCLE_OUTS := [[Arc(1, 1.0)], [Arc(0, 1.0)]]
  const CYCLE_TELE := [1.0, 0.0]

  lemma {:induction false} CycleSetUp()
    ensures Valid(CYCLE) && NonnegativeWeights(CYCLE)
    ensures AllOuts(CYCLE) == CYCLE_OUTS && Tele(CYCLE.names, map["a" := 1.0]) == CYCLE_TELE
  {
    var es := CYCLE.edges;
    assert es[..1] == [Edge(0, 1, 1.0)] && es[..1][..0] == [];
    assert Targets([], 0) == [] && Targets([], 1) == [];
    assert Targets(es[..1], 0) == [1] && Targets(es[..1], 1) == [];
    assert Targets(es, 0) == [1] && Targets(es, 1) == [0];
    assert Outs(CYCLE, 0) == CYCLE_OUTS[0] && Outs(CYCLE, 1) == CYCLE_OUTS[1];
    var w := TeleWeights(CYCLE.names, map["a" := 1.0]);
    assert Sum(w, 2) == Sum(w, 1) + w(1) && Sum(w, 1) == Sum(w, 0) + w(0);
    assert w(0) == 1.0 && w(1) == 0.0;
  }

  lemma {:induction false} CycleShares()
    ensures var P := Shares(CYCLE_OUTS, CYCLE_TELE);
            P(0, 0) == 0.0 && P(0, 1) == 1.0 && P(1, 0) == 1.0 && P(1, 1) == 0.0
  {
    assert OutSum(CYCLE_OUTS[0], 1) == 1.0 && OutSum(CYCLE_OUTS[1], 1) == 1.0;
  }

  lemma {:induction false} SumOfTwo(f: int -> real)
    ensures Sum(f, 2) == f(0) + f(1)
  {
    assert Sum(f, 2) == Sum(f, 1) + f(1) && Sum(f, 1) == Sum(f, 0) + f(0);
  }

  lemma {:induction false} CycleFlow(x: seq<real>)
    requires |x| == 2
    ensures var P := Shares(CYCLE_OUTS, CYCLE_TELE);
            D.Flow(P, 2, Coord(x), 0) == x[1] && D.Flow(P, 2, Coord(x), 1) == x[0]
  {
    var P := Shares(CYCLE_OUTS, CYCLE_TELE);
    CycleShares();
    SumOfTwo(D.Terms(P, Coord(x), 0));
    SumOfTwo(D.Terms(P, Coord(x), 1));
  }

  function CycleMap(): seq<real> -> seq<real> {
    PassMap(CYCLE_OUTS, CYCLE_TELE, PAGERANK_ALPHA)
  }

  lemma {:induction false} CyclePass(x: seq<real>)
    requires |x| == 2
    ensures CycleMap()(x) == [0.15 + 0.85 * x[1], 0.85 * x[0]]
  {
    CycleFlow(x);
    PassAt(CYCLE_OUTS, CYCLE_TELE, PAGERANK_ALPHA, x, 0);
    PassAt(CYCLE_OUTS, CYCLE_TELE, PAGERANK_ALPHA, x, 1);
  }

  /** A pass over the cycle swaps the two changes and damps them. */
  lemma {:induction false} CycleGap(x: seq<real>, y: seq<real>)
    requires |x| == |y| == 2
    ensures var T := CycleMap();
            |T(x)| == |T(y)| == 2
            && Gap(T(x), T(y), 0) == 0.85 * Gap(x, y, 1) && Gap(T(x), T(y), 1) == 0.85 * Gap(x, y, 0)
  {
    CyclePass(x);
    CyclePass(y);
  }

  /** On the cycle pass k + 1 changes both ranks by exactly alpha^(k+1). */
  lemma {:induction false} CycleChange(k: nat)
    ensures var x, y := C.Iterate(CycleMap(), CYCLE_TELE, k + 1), C.Iterate(CycleMap(), CYCLE_TELE, k);
            |x| == |y| == 2 && Gap(x, y, 0) == Gap(x, y, 1) == Pow(PAGERANK_ALPHA, k + 1)
  {
    if k == 0 {
      CyclePass(CYCLE_TELE);
      assert Pow(PAGERANK_ALPHA, 1) == PAGERANK_ALPHA * Pow(PAGERANK_ALPHA, 0);
    } else {
      CycleChange(k - 1);
      CycleGap(C.Iterate(CycleMap(), CYCLE_TELE, k), C.Iterate(CycleMap(), CYCLE_TELE, k - 1));
    }
  }

  lemma {:induction false} PowDecreases(b: real, j: nat, k: nat)
    requires 0.0 <= b < 1.0 && j <= k
    ensures Pow(b, k) <= Pow(b, j)
    decreases k
  {
    if j < k {
      PowDecreases(b, j, k - 1);
      PowUnit(b, k - 1);
      ShrinkBy(b, Pow(b, k - 1));
    }
  }

  lemma {:induction false} ShrinkBy(b: real, p: real)
    requires 0.0 <= b <= 1.0 && p >= 0.0
    ensures 0.0 <= b * p <= p
  {
  }

  lemma {:induction false} EarlyChange(j: nat)
    requires j < 85
    ensures MaxChange(2)(C.Iterate(CycleMap(), CYCLE_TELE, j + 1), C.Iterate(CycleMap(), CYCLE_TELE, j)) >= PAGERANK_TOL
  {
    CycleChange(j);
    AlphaPowers();
    PowDecreases(PAGERANK_ALPHA, j + 1, 85);
    GapBelowMaxGap(2, C.Iterate(CycleMap(), CYCLE_TELE, j + 1), C.Iterate(CycleMap(), CYCLE_TELE, j), 0);
  }

  lemma {:induction false} CyclePasses()
    requires Proper(CYCLE_OUTS) && Distribution(CYCLE_TELE)
    ensures PassCount(CYCLE_OUTS, CYCLE_TELE, PAGERANK_ALPHA, PAGERANK_MAX_ITER, PAGERANK_TOL) == 86
  {
    forall j: nat | j < 85
      ensures MaxChange(2)(C.Iterate(CycleMap(), CYCLE_TELE, j + 1), C.Iterate(CycleMap(), CYCLE_TELE, j))
           >= PAGERANK_TOL
    {
      EarlyChange(j);
    }
    C.KeepsGoing(CycleMap(), MaxChange(2), CYCLE_TELE, PAGERANK_TOL, 0, 85, PAGERANK_MAX_ITER);
    ShippedConstantsStop(CYCLE_OUTS, CYCLE_TELE);
    EarlyChange(84);
  }

  /** No bound below 86 passes holds for all graphs: the cycle needs exactly 86. */
  lemma {:induction false} EightySixPassesAreNeeded()
    ensures PassCount(AllOuts(CYCLE), Tele(CYCLE.names, map["a" := 1.0]),
                      PAGERANK_ALPHA, PAGERANK_MAX_ITER, PAGERANK_TOL) == 86
  {
    CycleSetUp();
    TeleIsDistribution(CYCLE.names, map["a" := 1.0]);
    OutsAreProper(CYCLE);
    CyclePasses();
  }
}
