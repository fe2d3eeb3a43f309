/** What `pagerank` (code-graph/src/rank.rs) makes of the edges of a graph: every node passes its rank on along its
own edges, in proportion to their weights. */
module EdgeShares {
  import opened RealSums
  import opened Vectors
  import opened Sorting
  import opened CallGraph
  import opened Transpose
  import opened PageRank

  ghost predicate Connects(e: Edge, u: int, v: int) {
    e.src == u && e.dst == v
  }

  /** w is the weight of the edge from u to v, 0 if there is none. */
  ghost predicate Carries(edges: seq<Edge>, u: int, v: int, w: real) {
    if exists e :: e in edges && Connects(e, u, v) then exists e :: e in edges && Connects(e, u, v) && e.weight == w
    else w == 0.0
  }

  /** No two edges lead from the same node to the same node. */
  ghost predicate DistinctPairs(edges: seq<Edge>) {
    forall i, j :: 0 <= i < j < |edges| ==> !Connects(edges[i], edges[j].src, edges[j].dst)
  }

  ghost function Leaving(edges: seq<Edge>, u: int): set<int> {
    set i | 0 <= i < |edges| && edges[i].src == u
  }

  // ----- the arcs of a node -----

  lemma {:induction false} DistinctFront(front: seq<Edge>, last: Edge)
    requires DistinctPairs(front + [last])
    ensures DistinctPairs(front)
    ensures forall e :: e in front ==> !Connects(e, last.src, last.dst)
  {
    var edges := front + [last];
    forall i, j | 0 <= i < j < |front| ensures !Connects(front[i], front[j].src, front[j].dst) {
      assert edges[i] == front[i] && edges[j] == front[j];
    }
    forall e | e in front ensures !Connects(e, last.src, last.dst) {
      var i :| 0 <= i < |front| && front[i] == e;
      assert edges[i] == e && edges[|front|] == last;
    }
  }

  lemma {:induction false} TargetsExactly(edges: seq<Edge>, u: nat, v: nat)
    ensures v in Targets(edges, u) <==> exists e :: e in edges && Connects(e, u, v)
  {
    if edges != [] {
      var front, last := edges[..|edges| - 1], edges[|edges| - 1];
      TargetsExactly(front, u, v);
      assert edges == front + [last];
      assert Connects(last, u, v) ==> last in edges;
    }
  }

  lemma {:induction false} TargetsCount(edges: seq<Edge>, u: nat)
    ensures |Targets(edges, u)| == |Leaving(edges, u)|
  {
    if edges != [] {
      var n := |edges| - 1;
      TargetsCount(edges[..n], u);
      assert Leaving(edges, u) == Leaving(edges[..n], u) + if edges[n].src == u then {n} else {};
    }
  }

  lemma {:induction false} TargetsDistinct(edges: seq<Edge>, u: nat, v: nat)
    requires DistinctPairs(edges)
    ensures multiset(Targets(edges, u))[v] <= 1
  {
    if edges != [] {
      var front, last := edges[..|edges| - 1], edges[|edges| - 1];
      assert edges == front + [last];
      DistinctFront(front, last);
      TargetsDistinct(front, u, v);
      if Connects(last, u, v) {
        TargetsExactly(front, u, v);
        assert v !in Targets(front, u);
      }
    }
  }

  lemma {:induction false} FoundWeight(edges: seq<Edge>, u: nat, v: nat, e: Edge)
    requires DistinctPairs(edges) && e in edges && Connects(e, u, v)
    ensures FindWeight(edges, u, v) == e.weight
  {
    var front, last := edges[..|edges| - 1], edges[|edges| - 1];
    assert edges == front + [last];
    DistinctFront(front, last);
    if e in front {
      assert !Connects(e, last.src, last.dst);
      FoundWeight(front, u, v, e);
    } else {
      assert e == last;
    }
  }

  /** Of distinct neighbours each gets its own weight, once. */
  lemma {:induction false} WeightOnce(arcs: seq<Arc>, v: nat, k: nat, w: real)
    requires k <= |arcs| && forall i, j :: 0 <= i < j < |arcs| ==> arcs[i].node != arcs[j].node
    requires forall i :: 0 <= i < |arcs| && arcs[i].node == v ==> arcs[i].weight == w
    ensures WeightTo(arcs, v, k) == if exists i :: 0 <= i < k && arcs[i].node == v then w else 0.0
  {
    if k > 0 {
      WeightOnce(arcs, v, k - 1, w);
      if arcs[k - 1].node == v {
        assert !exists i :: 0 <= i < k - 1 && arcs[i].node == v;
      } else {
        assert forall i :: 0 <= i < k && arcs[i].node == v ==> i < k - 1;
      }
    }
  }

  lemma {:induction false} OnceInSequence(s: seq<nat>, i: nat, j: nat)
    requires i < j < |s| && s[i] == s[j]
    ensures multiset(s)[s[i]] >= 2
  {
    assert s == s[..j] + s[j..];
    assert s[i] == s[..j][i] && s[..j][i] in s[..j] && s[j] == s[j..][0] && s[j..][0] in s[j..];
    assert multiset(s) == multiset(s[..j]) + multiset(s[j..]);
  }

  lemma {:induction false} NeighboursDistinct(g: Graph, u: nat)
    requires DistinctPairs(g.edges)
    ensures forall i, j :: 0 <= i < j < |Outs(g, u)| ==> Outs(g, u)[i].node != Outs(g, u)[j].node
  {
    var nbrs := Sort(NatLe, Targets(g.edges, u));
    SortPermutes(NatLe, Targets(g.edges, u));
    forall i, j | 0 <= i < j < |nbrs| ensures nbrs[i] != nbrs[j] {
      TargetsDistinct(g.edges, u, nbrs[i]);
      if nbrs[i] == nbrs[j] {
        OnceInSequence(nbrs, i, j);
        assert false;
      }
    }
  }

  lemma {:induction false} ArcTo(g: Graph, u: nat, v: nat)
    ensures (exists i :: 0 <= i < |Outs(g, u)| && Outs(g, u)[i].node == v) <==> v in Targets(g.edges, u)
    ensures forall i :: 0 <= i < |Outs(g, u)| && Outs(g, u)[i].node == v ==>
                          Outs(g, u)[i].weight == FindWeight(g.edges, u, v)
  {
    var nbrs := Sort(NatLe, Targets(g.edges, u));
    SortMembers(NatLe, Targets(g.edges, u));
    if v in Targets(g.edges, u) {
      var i :| 0 <= i < |nbrs| && nbrs[i] == v;
      assert Outs(g, u)[i].node == v;
    }
    forall i | 0 <= i < |Outs(g, u)| && Outs(g, u)[i].node == v ensures v in Targets(g.edges, u) {
      assert nbrs[i] == v && nbrs[i] in nbrs;
    }
  }

  /** The arcs of a node are its edges: the same number of them, and the same weight for every target. */
  lemma {:induction false} ArcsAreEdges(g: Graph, u: nat, v: nat)
    requires DistinctPairs(g.edges)
    ensures |Outs(g, u)| == |Leaving(g.edges, u)|
    ensures Carries(g.edges, u, v, WeightTo(Outs(g, u), v, |Outs(g, u)|))
  {
    SortPermutes(NatLe, Targets(g.edges, u));
    TargetsCount(g.edges, u);
    NeighboursDistinct(g, u);
    ArcTo(g, u, v);
    TargetsExactly(g.edges, u, v);
    WeightOnce(Outs(g, u), v, |Outs(g, u)|, FindWeight(g.edges, u, v));
    if e :| e in g.edges && Connects(e, u, v) {
      FoundWeight(g.edges, u, v, e);
    }
  }

  // ----- the shares of a node -----

  /** What u sends to v: the weight of its edge over the weight of all its edges, and its teleport share when it has
      no edges. */
  ghost predicate SendsByWeight(edges: seq<Edge>, n: nat, u: int, share: int -> real, t: int -> real) {
    exists weights: int -> real :: CarriesAll(edges, n, u, weights) && InProportion(n, weights, share, t)
  }

  ghost predicate CarriesAll(edges: seq<Edge>, n: nat, u: int, weights: int -> real) {
    forall v :: 0 <= v < n ==> Carries(edges, u, v, weights(v))
  }

  ghost predicate InProportion(n: nat, weights: int -> real, share: int -> real, t: int -> real) {
    var total := Sum(weights, n);
    && (total > 0.0 ==> forall v :: 0 <= v < n ==> share(v) == weights(v) / total)
    && (total == 0.0 ==> forall v :: 0 <= v < n ==> share(v) == t(v))
    && total >= 0.0
  }

  lemma {:induction false} SharesOfEdges(g: Graph, tele: seq<real>, u: nat)
    requires Valid(g) && NonnegativeWeights(g) && DistinctPairs(g.edges) && u < |g.names|
    ensures SendsByWeight(g.edges, |g.names|, u, Row(AllOuts(g), tele, u), Coord(tele))
  {
    var n, arcs := |g.names|, Outs(g, u);
    var weights := WeightsTo(arcs, |arcs|);
    OutsAreProper(g);
    assert AllOuts(g)[u] == arcs && ProperArcs(arcs, n);
    ArcsSplitByTarget(arcs, n, |arcs|);
    forall v | 0 <= v < n ensures Carries(g.edges, u, v, weights(v)) {
      ArcsAreEdges(g, u, v);
    }
    InProportionOf(AllOuts(g), tele, u, n, weights);
    assert CarriesAll(g.edges, n, u, weights);
  }

  lemma {:induction false} InProportionOf(outs: seq<seq<Arc>>, tele: seq<real>, u: nat, n: nat, weights: int -> real)
    requires u < |outs| && weights == WeightsTo(outs[u], |outs[u]|)
    requires Sum(weights, n) == OutSum(outs[u], |outs[u]|) >= 0.0
    ensures InProportion(n, weights, Row(outs, tele, u), Coord(tele))
  {
  }

  // ----- on a call graph -----

  lemma {:induction false} CallPairsDistinct(sqrt: nat -> real, ts: seq<Triple>, g: Graph)
    requires IsCallGraph(sqrt, ts, g)
    ensures DistinctPairs(g.edges)
  {
    var keys := EdgeKeys(g);
    forall i, j | 0 <= i < j < |g.edges| ensures !Connects(g.edges[i], g.edges[j].src, g.edges[j].dst) {
      assert keys[i] != keys[j];
    }
  }

  /** In the ranking of a call graph every function passes its rank on to the functions it calls, in proportion to
      the weights of the edges. */
  lemma {:induction false} CallShares(sqrt: nat -> real, ts: seq<Triple>, g: Graph, tele: seq<real>, u: nat)
    requires IsSquareRoot(sqrt) && NonnegativeConfidences(ts) && IsCallGraph(sqrt, ts, g) && u < |g.names|
    ensures SendsByWeight(g.edges, |g.names|, u, Row(AllOuts(g), tele, u), Coord(tele))
  {
    WeightsNonneg(sqrt, ts, g);
    CallPairsDistinct(sqrt, ts, g);
    SharesOfEdges(g, tele, u);
  }
}
